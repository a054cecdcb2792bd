/** What the operations of the file system do to a disk image, and why the image stays consistent. */
module Storage {
  import opened Basics
  import opened Bytes
  import opened Disk
  import opened Layout
  import opened FatTable
  import opened Chains
  import opened Directory
  import opened Volume
  import opened Arithmetic

  datatype Outcome = Ok | RootDirectoryFull | DiskFull | FileNotFound

  // ----- Reading along a chain -----

  /** The links from `c` stay on the drive for as long as a read of `remaining` bytes follows them. */
  predicate Readable(b: Bpb, d: Image, c: nat, remaining: nat)
    requires GoodBpb(b)
    decreases remaining
  {
    c < FIRST_END_MARK ==>
      && Fits(b, |d|, c)
      && (remaining > BytesPerCluster(b) ==>
            (EntryBeforeCluster(b, |d|, c); Readable(b, d, FatEntry(b, d, c), remaining - BytesPerCluster(b))))
  }

  /** The bytes a read of `remaining` bytes from cluster `c` yields; the links may even form a cycle. */
  function ReadFrom(b: Bpb, d: Image, c: nat, remaining: nat): (bs: seq<byte>)
    requires GoodBpb(b) && Readable(b, d, c, remaining)
    ensures |bs| <= remaining
    decreases remaining
  {
    if c >= FIRST_END_MARK then []
    else
      var here := ClusterBytes(b, d, c);
      if remaining <= BytesPerCluster(b) then here[..remaining]
      else
        EntryBeforeCluster(b, |d|, c);
        here + ReadFrom(b, d, FatEntry(b, d, c), remaining - BytesPerCluster(b))
  }

  lemma ReadStep(b: Bpb, d: Image, c: nat, remaining: nat, before: seq<byte>)
    requires GoodBpb(b) && Readable(b, d, c, remaining) && c < FIRST_END_MARK
    ensures FatSector(b, c) < |d|
    ensures var n := Min(remaining, BytesPerCluster(b));
      var next := FatEntry(b, d, c);
      && ClusterBytes(b, d, c)[..BytesPerCluster(b)] == ClusterBytes(b, d, c)
      && (remaining > n ==> Readable(b, d, next, remaining - n))
      && before + ReadFrom(b, d, c, remaining)
         == (before + ClusterBytes(b, d, c)[..n]) + (if remaining == n then [] else ReadFrom(b, d, next, remaining - n))
  {
    EntryBeforeCluster(b, |d|, c);
  }

  /** Every cluster of `S` is on the drive and links into `S` or to an end mark; the links may form cycles. */
  ghost predicate ClosedUnderLinks(b: Bpb, d: Image, S: set<nat>)
    requires GoodBpb(b)
  {
    forall x :: x in S ==>
      && Fits(b, |d|, x)
      && (EntryBeforeCluster(b, |d|, x); FatEntry(b, d, x) in S || FatEntry(b, d, x) >= FIRST_END_MARK)
  }

  /** From a cluster of such a set every read ends, whatever its length: each link follows a full cluster. */
  lemma {:induction false} AnyTableIsReadable(b: Bpb, d: Image, S: set<nat>, c: nat, remaining: nat)
    requires GoodBpb(b) && ClosedUnderLinks(b, d, S) && (c in S || c >= FIRST_END_MARK)
    ensures Readable(b, d, c, remaining)
    decreases remaining
  {
    if c >= FIRST_END_MARK || remaining <= BytesPerCluster(b) {
    } else {
      EntryBeforeCluster(b, |d|, c);
      AnyTableIsReadable(b, d, S, FatEntry(b, d, c), remaining - BytesPerCluster(b));
    }
  }

  ghost predicate AlwaysReadable(b: Bpb, d: Image, c: nat)
    requires GoodBpb(b)
  {
    forall remaining: nat :: Readable(b, d, c, remaining)
  }

  lemma NextAlwaysReadable(b: Bpb, d: Image, c: nat)
    requires GoodBpb(b) && AlwaysReadable(b, d, c) && c < FIRST_END_MARK
    ensures Fits(b, |d|, c) && FatSector(b, c) < |d| && AlwaysReadable(b, d, FatEntry(b, d, c))
  {
    assert Readable(b, d, c, 0);
    EntryBeforeCluster(b, |d|, c);
    forall remaining: nat ensures Readable(b, d, FatEntry(b, d, c), remaining) {
      if remaining > 0 {
        assert Readable(b, d, c, remaining + BytesPerCluster(b));
      } else {
        assert Readable(b, d, c, BytesPerCluster(b) + 1);
        assert Readable(b, d, FatEntry(b, d, c), 1);
      }
    }
  }

  /** Reads of every length end exactly when the start lies in a set of clusters that the links never leave. */
  lemma ReadableIffClosed(b: Bpb, d: Image, c: nat)
    requires GoodBpb(b) && c < FIRST_END_MARK
    ensures AlwaysReadable(b, d, c) <==> exists S: set<nat> :: c in S && ClosedUnderLinks(b, d, S)
  {
    if AlwaysReadable(b, d, c) {
      var S := set x: nat | x < FIRST_END_MARK && AlwaysReadable(b, d, x);
      forall x | x in S
        ensures Fits(b, |d|, x) && FatSector(b, x) < |d| && (FatEntry(b, d, x) in S || FatEntry(b, d, x) >= FIRST_END_MARK)
      {
        NextAlwaysReadable(b, d, x);
      }
      assert c in S && ClosedUnderLinks(b, d, S);
    }
    if S: set<nat> :| c in S && ClosedUnderLinks(b, d, S) {
      forall remaining: nat ensures Readable(b, d, c, remaining) {
        AnyTableIsReadable(b, d, S, c, remaining);
      }
    }
  }

  /** The links of allocated entries lead to allocated entries or end marks: no more is asked of the table. */
  ghost predicate LinksStay(b: Bpb, d: Image)
    requires MetadataFits(b, d)
  {
    var fat := Fat(b, d);
    forall c :: 2 <= c < |fat| && fat[c] != FREE ==>
      OnDisk(b, |d|, c) && (fat[c] >= FIRST_END_MARK || (2 <= fat[c] < |fat| && fat[fat[c]] != FREE))
  }

  lemma LinkStays(b: Bpb, d: Image, x: nat)
    requires MetadataFits(b, d) && LinksStay(b, d) && 2 <= x < ClusterCount(b) && Fat(b, d)[x] != FREE
    ensures Fits(b, |d|, x) && FatSector(b, x) < |d| && FatEntry(b, d, x) == Fat(b, d)[x]
    ensures var next := FatEntry(b, d, x);
      next >= FIRST_END_MARK || (2 <= next < ClusterCount(b) && Fat(b, d)[next] != FREE)
  {
    EntryBeforeCluster(b, |d|, x);
  }

  /** On such a table, cross-linked and cyclic ones included, every read that starts at an allocated cluster ends. */
  lemma AllocatedIsReadable(b: Bpb, d: Image, c: nat, remaining: nat)
    requires MetadataFits(b, d) && LinksStay(b, d) && 2 <= c < ClusterCount(b) && Fat(b, d)[c] != FREE
    ensures Readable(b, d, c, remaining)
  {
    var S := set x: nat | x in Allocated(Fat(b, d)) && x >= 2;
    assert ClosedUnderLinks(b, d, S) by {
      forall x | x in S
        ensures Fits(b, |d|, x) && FatSector(b, x) < |d| && (FatEntry(b, d, x) in S || FatEntry(b, d, x) >= FIRST_END_MARK)
      {
        LinkStays(b, d, x);
      }
    }
    AnyTableIsReadable(b, d, S, c, remaining);
  }

  /** Reading a chain is reading its first cluster and then the others. */
  lemma StoredStep(b: Bpb, d: Image, ch: seq<nat>, size: nat)
    requires AllOnDisk(b, |d|, ch) && ch != []
    ensures Stored(b, d, ch, size)
         == if size <= BytesPerCluster(b) then ClusterBytes(b, d, ch[0])[..size]
            else ClusterBytes(b, d, ch[0]) + Stored(b, d, ch[1..], size - BytesPerCluster(b))
  {
    var here, rest := ClusterBytes(b, d, ch[0]), ChainBytes(b, d, ch[1..]);
    assert ChainBytes(b, d, ch) == here + rest;
  }

  /** Following the link of the first cluster of a chain. */
  lemma NextInChain(b: Bpb, d: Image, ch: seq<nat>)
    requires MetadataFits(b, d) && IsChain(Fat(b, d), ch) && AllOnDisk(b, |d|, ch)
    ensures Fits(b, |d|, ch[0]) && FatSector(b, ch[0]) < |d|
    ensures var next := FatEntry(b, d, ch[0]);
      if |ch| == 1 then next >= FIRST_END_MARK else next == ch[1] && IsChain(Fat(b, d), ch[1..])
  {
    EntryBeforeCluster(b, |d|, ch[0]);
    assert Fat(b, d)[ch[0]] == FatEntry(b, d, ch[0]);
  }

  /** Reading from a cluster is reading it and then following its link. */
  lemma ReadOne(b: Bpb, d: Image, c: nat, remaining: nat)
    requires GoodBpb(b) && Fits(b, |d|, c) && c < FIRST_END_MARK && FatSector(b, c) < |d|
    requires remaining > BytesPerCluster(b) ==> Readable(b, d, FatEntry(b, d, c), remaining - BytesPerCluster(b))
    ensures Readable(b, d, c, remaining)
    ensures ReadFrom(b, d, c, remaining)
         == if remaining <= BytesPerCluster(b) then ClusterBytes(b, d, c)[..remaining]
            else ClusterBytes(b, d, c) + ReadFrom(b, d, FatEntry(b, d, c), remaining - BytesPerCluster(b))
  {
    if remaining <= BytesPerCluster(b) {
      assert Readable(b, d, c, remaining);
    } else {
      EntryBeforeCluster(b, |d|, c);
      assert Readable(b, d, c, remaining);
    }
  }

  lemma ReadLast(b: Bpb, d: Image, ch: seq<nat>, remaining: nat)
    requires MetadataFits(b, d) && IsChain(Fat(b, d), ch) && AllOnDisk(b, |d|, ch)
    requires |ch| == 1 || remaining <= BytesPerCluster(b)
    ensures Readable(b, d, ch[0], remaining)
    ensures ReadFrom(b, d, ch[0], remaining) == Stored(b, d, ch, remaining)
  {
    StoredStep(b, d, ch, remaining);
    NextInChain(b, d, ch);
    if remaining > BytesPerCluster(b) {
      assert Readable(b, d, FatEntry(b, d, ch[0]), remaining - BytesPerCluster(b));
      assert Stored(b, d, ch[1..], remaining - BytesPerCluster(b)) == [];
    }
    ReadOne(b, d, ch[0], remaining);
  }

  lemma ReadMore(b: Bpb, d: Image, ch: seq<nat>, remaining: nat)
    requires MetadataFits(b, d) && IsChain(Fat(b, d), ch) && AllOnDisk(b, |d|, ch)
    requires |ch| > 1 && remaining > BytesPerCluster(b) && Readable(b, d, ch[1], remaining - BytesPerCluster(b))
    requires ReadFrom(b, d, ch[1], remaining - BytesPerCluster(b)) == Stored(b, d, ch[1..], remaining - BytesPerCluster(b))
    ensures Readable(b, d, ch[0], remaining)
    ensures ReadFrom(b, d, ch[0], remaining) == Stored(b, d, ch, remaining)
  {
    StoredStep(b, d, ch, remaining);
    NextInChain(b, d, ch);
    ReadOne(b, d, ch[0], remaining);
  }

  /** On a complete chain a read yields the first bytes of the chain. */
  lemma {:induction false} ReadFollowsChain(b: Bpb, d: Image, ch: seq<nat>, remaining: nat)
    requires MetadataFits(b, d) && IsChain(Fat(b, d), ch) && AllOnDisk(b, |d|, ch)
    ensures Readable(b, d, ch[0], remaining)
    ensures ReadFrom(b, d, ch[0], remaining) == Stored(b, d, ch, remaining)
    decreases |ch|
  {
    if |ch| == 1 || remaining <= BytesPerCluster(b) {
      ReadLast(b, d, ch, remaining);
    } else {
      NextInChain(b, d, ch);
      ReadFollowsChain(b, d, ch[1..], remaining - BytesPerCluster(b));
      ReadMore(b, d, ch, remaining);
    }
  }

  lemma FlattenSplit(ss: seq<Sector>, i: nat)
    requires i <= |ss|
    ensures Flatten(ss) == Flatten(ss[..i]) + Flatten(ss[i..])
  {
    assert ss == ss[..i] + ss[i..];
    FlattenAppend(ss[..i], ss[i..]);
  }

  lemma TakeJoined(before: seq<byte>, front: seq<byte>, back: seq<byte>, k: nat)
    requires k <= |back|
    ensures (front + back)[..|front|] == front
    ensures (before + front) + back[..k] == before + (front + back)[..|front| + k]
  {
    assert (front + back)[..|front| + k] == front + back[..k];
  }

  /** Sector `i` follows the first `512 * i` bytes. */
  lemma FlattenStep(ss: seq<Sector>, i: nat, k: nat, before: seq<byte>)
    requires i < |ss| && k <= 512
    ensures (before + Flatten(ss)[..i * 512]) + ss[i][..k] == before + Flatten(ss)[..i * 512 + k]
  {
    FlattenSplit(ss, i);
    var front, back := Flatten(ss[..i]), Flatten(ss[i..]);
    assert back[..k] == ss[i][..k];
    TakeJoined(before, front, back, k);
  }

  /** The first `i` sectors hold the front of `chunk`. */
  ghost predicate HoldsFront(ss: seq<Sector>, chunk: seq<byte>, i: nat)
    requires |chunk| <= 512 * |ss|
  {
    var n := Min(|chunk|, i * 512);
    Flatten(ss)[..n] == chunk[..n]
  }

  lemma HoldsFrontStep(ss: seq<Sector>, chunk: seq<byte>, i: nat, buffer: Sector)
    requires |chunk| <= 512 * |ss| && i < |ss| && i * 512 < |chunk| && HoldsFront(ss, chunk, i)
    requires var n := Min(512, |chunk| - i * 512); buffer[..n] == chunk[i * 512..i * 512 + n]
    ensures HoldsFront(ss[i := buffer], chunk, i + 1)
  {
    var ss', n := ss[i := buffer], Min(512, |chunk| - i * 512);
    FlattenSplit(ss, i);
    FlattenSplit(ss', i);
    assert ss'[..i] == ss[..i];
    FlattenStep(ss', i, n, []);
    assert Flatten(ss')[..i * 512] == Flatten(ss)[..i * 512];
    assert chunk[..i * 512 + n] == chunk[..i * 512] + chunk[i * 512..i * 512 + n];
  }

  /** The first `j` sectors hold the front of `chunk`, the others what they held before. */
  ghost predicate FilledUpTo(before: seq<Sector>, ss: seq<Sector>, chunk: seq<byte>, j: nat) {
    |before| == |ss| && j <= |ss| && |chunk| <= 512 * |ss| && HoldsFront(ss, chunk, j) && ss[j..] == before[j..]
  }

  lemma FilledUpToStep(before: seq<Sector>, ss: seq<Sector>, chunk: seq<byte>, i: nat, buffer: Sector)
    requires FilledUpTo(before, ss, chunk, i) && i < |ss| && i * 512 < |chunk|
    requires var n := Min(512, |chunk| - i * 512); buffer[..n] == chunk[i * 512..i * 512 + n]
    ensures FilledUpTo(before, ss[i := buffer], chunk, i + 1)
  {
    HoldsFrontStep(ss, chunk, i, buffer);
    assert ss[i := buffer][i + 1..] == ss[i..][1..] && before[i + 1..] == before[i..][1..];
  }

  /** Cluster `c` has been filled with `chunk` since `d0`, perhaps only in part. */
  ghost predicate PartlyFilled(b: Bpb, d0: Image, d: Image, c: nat, chunk: seq<byte>) {
    && Fits(b, |d0|, c) && |d| == |d0|
    && exists j :: FilledUpTo(ClusterSectors(b, d0, c), ClusterSectors(b, d, c), chunk, j)
  }

  ghost predicate FillingImage(b: Bpb, d0: Image, d: Image, c: nat, chunk: seq<byte>) {
    OnlyCluster(b, d0, d, c) && PartlyFilled(b, d0, d, c, chunk)
  }

  ghost predicate AllFilling(b: Bpb, d0: Image, images: seq<Image>, from: nat, c: nat, chunk: seq<byte>) {
    forall k {:trigger FillingImage(b, d0, images[k], c, chunk)} ::
      from <= k < |images| ==> FillingImage(b, d0, images[k], c, chunk)
  }

  lemma UnfilledIsPartly(b: Bpb, d0: Image, d: Image, c: nat, chunk: seq<byte>)
    requires Fits(b, |d0|, c) && |d| == |d0| && |chunk| <= BytesPerCluster(b)
    requires ClusterSectors(b, d, c) == ClusterSectors(b, d0, c)
    ensures PartlyFilled(b, d0, d, c, chunk)
  {
    assert FilledUpTo(ClusterSectors(b, d0, c), ClusterSectors(b, d, c), chunk, 0);
  }

  // ----- Sizes -----

  /** How many clusters a file of `len` bytes takes: at least one, even for an empty file. */
  function ClustersNeeded(b: Bpb, len: nat): (n: nat)
    requires 1 <= b.sectorsPerCluster
    ensures n >= 1
    ensures (n - 1) * BytesPerCluster(b) <= len <= n * BytesPerCluster(b)
    ensures n > 1 ==> (n - 1) * BytesPerCluster(b) < len
    decreases len
  {
    if len <= BytesPerCluster(b) then 1
    else 1 + ClustersNeeded(b, len - BytesPerCluster(b))
  }

  lemma ClustersNeededIsLeast(b: Bpb, len: nat, n: nat)
    requires 1 <= b.sectorsPerCluster
    ensures n >= 1 && len <= n * BytesPerCluster(b) <==> n >= ClustersNeeded(b, len)
  {
    var need, bpc := ClustersNeeded(b, len), BytesPerCluster(b);
    if n >= need {
      MulGrows(need, n, bpc);
    } else {
      MulGrows(n, need - 1, bpc);
    }
  }

  /** Where the chunk behind `n` clusters ends. */
  lemma ChunkEnd(b: Bpb, len: nat, n: nat)
    requires n * BytesPerCluster(b) <= len
    ensures Min(len, (n + 1) * BytesPerCluster(b))
         == n * BytesPerCluster(b) + Min(len - n * BytesPerCluster(b), BytesPerCluster(b))
  {
    MulNext(n, BytesPerCluster(b));
  }

  /** The bytes of `data` that go into cluster `n` of its chain. */
  function ChunkOf(b: Bpb, data: seq<byte>, n: nat): (chunk: seq<byte>)
    requires n * BytesPerCluster(b) <= |data|
    ensures |chunk| <= BytesPerCluster(b)
  {
    ChunkEnd(b, |data|, n);
    data[n * BytesPerCluster(b)..Min(|data|, (n + 1) * BytesPerCluster(b))]
  }

  /** While data is left, more clusters are needed. */
  lemma NextChunk(b: Bpb, len: nat, n: nat)
    requires 1 <= b.sectorsPerCluster && if len == 0 then n == 0 else Min(len, n * BytesPerCluster(b)) < len
    ensures n < ClustersNeeded(b, len) && n * BytesPerCluster(b) <= len
  {
    ClustersNeededIsLeast(b, len, n);
  }

  /** The free clusters a write of `len` bytes would take all exist on the drive. */
  predicate WriteStaysOnDisk(b: Bpb, size: nat, fat: seq<u16>, len: nat)
    requires 1 <= b.sectorsPerCluster
  {
    var free := FreeClusters(fat);
    forall k :: 0 <= k < |free| && k < ClustersNeeded(b, len) ==> OnDisk(b, size, free[k])
  }

  /** `d` is `d0` with some entries freed, all of them free in `fat'` too, and nothing else changed. */
  ghost predicate PartlyFreed(b: Bpb, d0: Image, d: Image, n: nat, fat': seq<u16>)
    requires FatFits(b, d0, n) && |fat'| == n
  {
    && |d| == |d0|
    && (forall lba :: 0 <= lba < |d| && !(b.reservedSectors <= lba < b.reservedSectors + (n + 255) / ENTRIES_PER_FAT_SECTOR)
                      ==> d[lba] == d0[lba])
    && (forall c :: 0 <= c < n ==>
          || FatPrefix(b, d, n)[c] == FatPrefix(b, d0, n)[c]
          || FatPrefix(b, d, n)[c] == fat'[c] == FREE)
  }

  /** An image of the freeing loop: the entry `c` it started with is free already. */
  ghost predicate FreeingImage(b: Bpb, d0: Image, d: Image, n: nat, fat': seq<u16>, c: nat)
    requires FatFits(b, d0, n) && |fat'| == n
  {
    PartlyFreed(b, d0, d, n, fat') && (c < n ==> FatPrefix(b, d, n)[c] == FREE)
  }

  ghost predicate AllFreeing(b: Bpb, d0: Image, images: seq<Image>, from: nat, n: nat, fat': seq<u16>, c: nat)
    requires FatFits(b, d0, n) && |fat'| == n
  {
    forall k {:trigger FreeingImage(b, d0, images[k], n, fat', c)} ::
      from <= k < |images| ==> FreeingImage(b, d0, images[k], n, fat', c)
  }

  /** One round of the freeing loop. */
  lemma FreeEntryStep(b: Bpb, d0: Image, d: Image, n: nat, fat: seq<u16>, c: nat)
    requires FatFits(b, d0, n) && c < n && |d| == |d0| && fat == FatPrefix(b, d, n) && PartlyFreed(b, d0, d, n, fat)
    ensures FatSector(b, c) < |d| && FatPrefix(b, WithFatEntry(b, d, c, FREE), n) == fat[c := FREE]
    ensures PartlyFreed(b, d0, WithFatEntry(b, d, c, FREE), n, fat[c := FREE])
  {
    SetThenGet(b, d, n, c, FREE);
  }

  lemma FreedHistory(b: Bpb, d0: Image, images: seq<Image>, from: nat, n: nat, fat: seq<u16>, c: nat, start: nat, d': Image)
    requires FatFits(b, d0, n) && |fat| == n && c < n && AllFreeing(b, d0, images, from, n, fat, start)
    requires FreeingImage(b, d0, d', n, fat[c := FREE], start)
    ensures AllFreeing(b, d0, images + [d'], from, n, fat[c := FREE], start)
  {
    var images' := images + [d'];
    forall k | from <= k < |images'| ensures FreeingImage(b, d0, images'[k], n, fat[c := FREE], start) {
      assert k == |images| || FreeingImage(b, d0, images[k], n, fat, start);
    }
  }

  ghost predicate AllExtend(b: Bpb, d0: Image, images: seq<Image>, from: nat, keep: set<nat>) {
    forall k {:trigger Extends(b, d0, images[k], keep)} :: from <= k < |images| ==> Extends(b, d0, images[k], keep)
  }

  ghost predicate SameClusters(b: Bpb, d: Image, d': Image) {
    |d'| == |d| && forall x :: OnDisk(b, |d|, x) ==> ClusterSectors(b, d', x) == ClusterSectors(b, d, x)
  }

  /** The table part of a write: `ch` is the smallest free clusters of `fat0`, in order, linked in that order. */
  ghost predicate Allocates(fat0: seq<u16>, fat: seq<u16>, ch: seq<nat>) {
    var free := FreeClusters(fat0);
    && |fat| == |fat0| && |ch| <= |free| && ch == free[..|ch|]
    && FreeClusters(fat) == free[|ch|..]
    && (ch == [] || IsChain(fat, ch))
  }

  /** The data part of a write: the front of `data`, as far as it fits, fills `ch`. */
  ghost predicate Filled(b: Bpb, d: Image, ch: seq<nat>, data: seq<byte>) {
    && AllOnDisk(b, |d|, ch)
    && var written := Min(|data|, |ch| * BytesPerCluster(b));
    && written <= |ChainBytes(b, d, ch)|
    && ChainBytes(b, d, ch)[..written] == data[..written]
  }

  /**
   * A write that started on `d0` has built and filled the chain `ch`, and nothing that was in use
   * has changed.
   */
  ghost predicate Progress(b: Bpb, d0: Image, d: Image, ch: seq<nat>, data: seq<byte>) {
    && MetadataFits(b, d0)
    && Extends(b, d0, d, Allocated(Fat(b, d0)))
    && Allocates(Fat(b, d0), Fat(b, d), ch)
    && Filled(b, d, ch, data)
    && Untouched(b, d0, d, FreeClusters(Fat(b, d)))
  }

  /** The given clusters hold what they held in `d0`. */
  ghost predicate Untouched(b: Bpb, d0: Image, d: Image, cs: seq<nat>) {
    && |d| == |d0|
    && forall k :: 0 <= k < |cs| && OnDisk(b, |d|, cs[k]) ==> ClusterSectors(b, d, cs[k]) == ClusterSectors(b, d0, cs[k])
  }

  /** The table between two steps of such a write: `n` clusters are taken, the first `m` of them linked. */
  ghost predicate MidwayTable(fat0: seq<u16>, fat: seq<u16>, n: nat, m: nat) {
    var free := FreeClusters(fat0);
    && 1 <= n <= |free| && n - 1 <= m <= n && free[n - 1] < |fat|
    && FreeClusters(fat) == free[n..]
    && (m > 0 ==> IsChain(fat, free[..m]))
    && (m < n ==> fat[free[n - 1]] >= FIRST_END_MARK)
  }

  /** The clusters at that moment: all `n` but the last are filled. */
  ghost predicate MidwayData(b: Bpb, d0: Image, d: Image, free: seq<nat>, n: nat, data: seq<byte>) {
    && 1 <= n <= |free| && OnDisk(b, |d|, free[n - 1])
    && (n - 1) * BytesPerCluster(b) <= |data| && Filled(b, d, free[..n - 1], data)
    && PartlyFilled(b, d0, d, free[n - 1], ChunkOf(b, data, n - 1))
  }

  /** An image between two steps of such a write. */
  ghost predicate MidwayAt(b: Bpb, d0: Image, d: Image, n: nat, m: nat, data: seq<byte>) {
    && MetadataFits(b, d0) && Extends(b, d0, d, Allocated(Fat(b, d0)))
    && MidwayTable(Fat(b, d0), Fat(b, d), n, m)
    && MidwayData(b, d0, d, FreeClusters(Fat(b, d0)), n, data)
  }

  ghost predicate Midway(b: Bpb, d0: Image, d: Image, data: seq<byte>) {
    exists n, m :: MidwayAt(b, d0, d, n, m, data)
  }

  ghost predicate AllMidway(b: Bpb, d0: Image, images: seq<Image>, from: nat, data: seq<byte>) {
    forall k {:trigger Midway(b, d0, images[k], data)} :: from <= k < |images| ==> Midway(b, d0, images[k], data)
  }

  /** The variables of the write loop agree with the chain built so far. */
  ghost predicate Writing(b: Bpb, d0: Image, d: Image, data: seq<byte>, ch: seq<nat>,
                          bytesWritten: nat, previous: Option<u16>, first: u16) {
    && Progress(b, d0, d, ch, data)
    && bytesWritten == Min(|data|, |ch| * BytesPerCluster(b)) && |ch| <= ClustersNeeded(b, |data|)
    && previous == (if ch == [] then None else Some(ch[|ch| - 1]))
    && (ch != [] ==> first == ch[0])
  }

  lemma ProgressStart(b: Bpb, d: Image, data: seq<byte>)
    requires MetadataFits(b, d)
    ensures Progress(b, d, d, [], data)
  {
  }

  /** The next free cluster is free in both tables and not part of the chain. */
  lemma NextCluster(fat0: seq<u16>, fat: seq<u16>, ch: seq<nat>)
    requires |fat0| >= 2 && fat0[0] != FREE && fat0[1] != FREE
    requires Allocates(fat0, fat, ch) && FreeClusters(fat) != []
    ensures var c := FreeClusters(fat)[0];
      && c == FreeClusters(fat0)[|ch|]
      && 2 <= c < |fat0| && c !in Allocated(fat0) && fat[c] == FREE
    ensures AllBelow(ch, |fat0|)
    ensures ch != [] ==> ch[|ch| - 1] !in Allocated(fat0)
  {
    FreeClustersAreFree(fat0);
    FreeClustersAreFree(fat);
    var free := FreeClusters(fat0);
    assert free[|ch|] in free;
    assert FreeClusters(fat)[0] in FreeClusters(fat);
    assert forall k :: 0 <= k < |ch| ==> ch[k] in free;
  }

  lemma AllocateStep(fat0: seq<u16>, fat: seq<u16>, ch: seq<nat>)
    requires 2 <= |fat0| <= FIRST_END_MARK && fat0[0] != FREE && fat0[1] != FREE
    requires Allocates(fat0, fat, ch) && FreeClusters(fat) != []
    ensures var c := FreeClusters(fat)[0];
      c < |fat| && AllBelow(ch, |fat|) && Allocates(fat0, Linked(fat, ch, c), ch + [c])
  {
    var c := FreeClusters(fat)[0];
    NextCluster(fat0, fat, ch);
    LinkExtendsChain(fat, ch, c);
    TakeFirstFree(fat, END_OF_CHAIN);
    if ch != [] {
      ChainIsAllocated(fat, ch);
      RelinkKeepsFree(fat[c := END_OF_CHAIN], ch[|ch| - 1], c);
    }
  }

  /** Filling the cluster behind a filled chain. */
  lemma FillStep(b: Bpb, d: Image, d': Image, ch: seq<nat>, c: nat, data: seq<byte>, chunk: seq<byte>)
    requires Filled(b, d, ch, data) && |ch| * BytesPerCluster(b) <= |data|
    requires chunk == ChunkOf(b, data, |ch|)
    requires |d'| == |d| && OnDisk(b, |d|, c)
    requires forall k :: 0 <= k < |ch| ==> ClusterSectors(b, d', ch[k]) == ClusterSectors(b, d, ch[k])
    requires ClusterBytes(b, d', c)[..|chunk|] == chunk
    ensures Filled(b, d', ch + [c], data)
  {
    ChainBytesFrame(b, d, d', ch);
    ChainBytesLength(b, d, ch);
    ChainBytesAppend(b, d', ch, [c]);
    MulNext(|ch|, BytesPerCluster(b));
    var front, back := ChainBytes(b, d', ch), ChainBytes(b, d', [c]);
    assert back == ClusterBytes(b, d', c);
    JoinChunk(front, back, data, chunk);
  }

  lemma JoinChunk(front: seq<byte>, back: seq<byte>, data: seq<byte>, chunk: seq<byte>)
    requires |front| + |chunk| <= |data| && front == data[..|front|] && |chunk| <= |back|
    requires chunk == data[|front|..|front| + |chunk|] == back[..|chunk|]
    ensures (front + back)[..|front| + |chunk|] == data[..|front| + |chunk|]
  {
  }

  // ----- The images in between -----

  lemma MidwayTableStep(fat0: seq<u16>, fat: seq<u16>, ch: seq<nat>, c: nat, m: nat)
    requires |ch| < |FreeClusters(fat0)| && ch == FreeClusters(fat0)[..|ch|] && c == FreeClusters(fat0)[|ch|]
    requires FreeClusters(fat) == FreeClusters(fat0)[|ch| + 1..]
    requires |ch| <= m <= |ch| + 1 && c < |fat|
    requires if m > |ch| then IsChain(fat, ch + [c]) else (ch != [] ==> IsChain(fat, ch)) && fat[c] >= FIRST_END_MARK
    ensures MidwayTable(fat0, fat, |ch| + 1, m)
  {
    assert FreeClusters(fat0)[..|ch| + 1] == ch + [c];
  }

  lemma MidwayDataStep(b: Bpb, d0: Image, d: Image, d': Image, free: seq<nat>, ch: seq<nat>, data: seq<byte>)
    requires |ch| < |free| && ch == free[..|ch|] && |d'| == |d| && Filled(b, d, ch, data)
    requires OnDisk(b, |d|, free[|ch|]) && |ch| * BytesPerCluster(b) <= |data|
    requires forall k :: 0 <= k < |ch| ==> ClusterSectors(b, d', ch[k]) == ClusterSectors(b, d, ch[k])
    requires PartlyFilled(b, d0, d', free[|ch|], ChunkOf(b, data, |ch|))
    ensures MidwayData(b, d0, d', free, |ch| + 1, data)
  {
    ChainBytesFrame(b, d, d', ch);
  }

  /** An image with the clusters of `ch` as in `d` is on its way to `ch + [c]` if its table is. */
  lemma MidwayStep(b: Bpb, d0: Image, d: Image, d': Image, ch: seq<nat>, c: nat, m: nat, data: seq<byte>)
    requires Progress(b, d0, d, ch, data) && Extends(b, d0, d', Allocated(Fat(b, d0)))
    requires OnDisk(b, |d|, c) && |ch| * BytesPerCluster(b) <= |data|
    requires |ch| < |FreeClusters(Fat(b, d0))| && c == FreeClusters(Fat(b, d0))[|ch|]
    requires FreeClusters(Fat(b, d')) == FreeClusters(Fat(b, d0))[|ch| + 1..]
    requires |ch| <= m <= |ch| + 1 && c < ClusterCount(b)
    requires if m > |ch| then IsChain(Fat(b, d'), ch + [c])
             else (ch != [] ==> IsChain(Fat(b, d'), ch)) && Fat(b, d')[c] >= FIRST_END_MARK
    requires forall k :: 0 <= k < |ch| ==> ClusterSectors(b, d', ch[k]) == ClusterSectors(b, d, ch[k])
    requires PartlyFilled(b, d0, d', c, ChunkOf(b, data, |ch|))
    ensures Midway(b, d0, d', data)
  {
    MidwayTableStep(Fat(b, d0), Fat(b, d'), ch, c, m);
    MidwayDataStep(b, d0, d, d', FreeClusters(Fat(b, d0)), ch, data);
    assert MidwayAt(b, d0, d', |ch| + 1, m, data);
  }

  /** The write is about to take `c`, the next free cluster. */
  ghost predicate Taking(b: Bpb, d0: Image, d: Image, ch: seq<nat>, c: nat, data: seq<byte>) {
    && Progress(b, d0, d, ch, data) && Fat(b, d0)[0] != FREE && Fat(b, d0)[1] != FREE
    && FreeClusters(Fat(b, d)) != [] && c == FreeClusters(Fat(b, d))[0]
    && OnDisk(b, |d|, c) && |ch| * BytesPerCluster(b) <= |data|
  }

  /** In `d1`, `c` has been linked behind `ch`; the contents of the clusters are those of `d`. */
  ghost predicate Taken(b: Bpb, d0: Image, d: Image, d1: Image, ch: seq<nat>, c: nat, data: seq<byte>) {
    && Taking(b, d0, d, ch, c, data) && Extends(b, d0, d1, Allocated(Fat(b, d0)))
    && AllBelow(ch, ClusterCount(b)) && Fat(b, d1) == Linked(Fat(b, d), ch, c)
    && SameClusters(b, d, d1)
  }

  /** The new cluster has been closed, but nothing points to it yet. */
  lemma ClosedIsMidway(b: Bpb, d0: Image, d: Image, ch: seq<nat>, c: nat, data: seq<byte>)
    requires Taking(b, d0, d, ch, c, data)
    ensures FatSector(b, c) < |d| && Midway(b, d0, WithFatEntry(b, d, c, END_OF_CHAIN), data)
  {
    var fat := Fat(b, d);
    NextCluster(Fat(b, d0), fat, ch);
    SetFatExtends(b, d0, d, Allocated(Fat(b, d0)), c, END_OF_CHAIN);
    SetFatKeepsRest(b, d, c, END_OF_CHAIN);
    TakeFirstFree(fat, END_OF_CHAIN);
    if ch != [] {
      ChainIsAllocated(fat, ch);
      ChainFrame(fat, fat[c := END_OF_CHAIN], ch);
    }
    UnfilledIsPartly(b, d0, WithFatEntry(b, d, c, END_OF_CHAIN), c, ChunkOf(b, data, |ch|));
    MidwayStep(b, d0, d, WithFatEntry(b, d, c, END_OF_CHAIN), ch, c, |ch|, data);
  }

  /** The new cluster has been linked and is being filled. */
  lemma LinkedIsMidway(b: Bpb, d0: Image, d: Image, d1: Image, d': Image, ch: seq<nat>, c: nat, data: seq<byte>)
    requires Taken(b, d0, d, d1, ch, c, data) && FillingImage(b, d1, d', c, ChunkOf(b, data, |ch|))
    ensures Midway(b, d0, d', data)
  {
    NextCluster(Fat(b, d0), Fat(b, d), ch);
    AllocateStep(Fat(b, d0), Fat(b, d), ch);
    LinkExtendsChain(Fat(b, d), ch, c);
    ClusterWriteExtends(b, d0, d1, d', Allocated(Fat(b, d0)), c);
    ClusterWriteKeepsRest(b, d1, d', c);
    assert forall k :: 0 <= k < |ch| ==> ch[k] in ch;
    MidwayStep(b, d0, d, d', ch, c, |ch| + 1, data);
  }

  lemma NotFilledIsMidway(b: Bpb, d0: Image, d: Image, d1: Image, ch: seq<nat>, c: nat, data: seq<byte>)
    requires Taken(b, d0, d, d1, ch, c, data)
    ensures Midway(b, d0, d1, data)
  {
    UnfilledIsPartly(b, d1, d1, c, ChunkOf(b, data, |ch|));
    LinkedIsMidway(b, d0, d, d1, d1, ch, c, data);
  }

  /** What linking adds to the history: the image in which `c` is only closed, unless it is the first, and `d1`. */
  function LinkImages(b: Bpb, d: Image, ch: seq<nat>, c: nat, d1: Image): (images: seq<Image>)
    requires FatSector(b, c) < |d|
    ensures images != [] && images[|images| - 1] == d1
  {
    if ch == [] then [d1] else [WithFatEntry(b, d, c, END_OF_CHAIN), d1]
  }

  lemma LinkImageIsMidway(b: Bpb, d0: Image, d: Image, d1: Image, ch: seq<nat>, c: nat, data: seq<byte>, k: nat)
    requires Taken(b, d0, d, d1, ch, c, data) && FatSector(b, c) < |d| && k < |LinkImages(b, d, ch, c, d1)|
    ensures Midway(b, d0, LinkImages(b, d, ch, c, d1)[k], data)
  {
    var image := LinkImages(b, d, ch, c, d1)[k];
    assert image == d1 || image == WithFatEntry(b, d, c, END_OF_CHAIN);
    if image == d1 {
      NotFilledIsMidway(b, d0, d, d1, ch, c, data);
    } else {
      ClosedIsMidway(b, d0, d, ch, c, data);
    }
  }

  /** Every image of one round of the write loop is midway. */
  lemma RoundIsMidway(b: Bpb, d0: Image, d: Image, d1: Image, h: seq<Image>, images: seq<Image>, ch: seq<nat>, c: nat, data: seq<byte>)
    requires Taken(b, d0, d, d1, ch, c, data) && FatSector(b, c) < |d|
    requires h + LinkImages(b, d, ch, c, d1) <= images
    requires AllFilling(b, d1, images, |h + LinkImages(b, d, ch, c, d1)|, c, ChunkOf(b, data, |ch|))
    ensures AllMidway(b, d0, images, |h|, data)
  {
    forall k | |h| <= k < |images| ensures Midway(b, d0, images[k], data) {
      if k < |h + LinkImages(b, d, ch, c, d1)| {
        assert images[k] == (h + LinkImages(b, d, ch, c, d1))[k] == LinkImages(b, d, ch, c, d1)[k - |h|];
        LinkImageIsMidway(b, d0, d, d1, ch, c, data, k - |h|);
      } else {
        LinkedIsMidway(b, d0, d, d1, images[k], ch, c, data);
      }
    }
  }

  /** One more cluster has been linked and filled. */
  lemma ProgressStep(b: Bpb, d0: Image, d: Image, d1: Image, d2: Image, ch: seq<nat>, c: nat, data: seq<byte>, chunk: seq<byte>)
    requires Taken(b, d0, d, d1, ch, c, data) && OnlyCluster(b, d1, d2, c)
    requires chunk == ChunkOf(b, data, |ch|) && ClusterBytes(b, d2, c)[..|chunk|] == chunk
    ensures Progress(b, d0, d2, ch + [c], data)
  {
    NextCluster(Fat(b, d0), Fat(b, d), ch);
    AllocateStep(Fat(b, d0), Fat(b, d), ch);
    LinkExtendsChain(Fat(b, d), ch, c);
    ClusterWriteExtends(b, d0, d1, d2, Allocated(Fat(b, d0)), c);
    ClusterWriteKeepsRest(b, d1, d2, c);
    FillStep(b, d, d2, ch, c, data, chunk);
    FreeClustersAreFree(Fat(b, d));
    UntouchedStep(b, d0, d, d2, FreeClusters(Fat(b, d)));
  }

  lemma UntouchedStep(b: Bpb, d0: Image, d: Image, d': Image, cs: seq<nat>)
    requires Untouched(b, d0, d, cs) && cs != [] && Ascending(cs) && |d'| == |d|
    requires forall x :: x != cs[0] && OnDisk(b, |d|, x) ==> ClusterSectors(b, d', x) == ClusterSectors(b, d, x)
    ensures Untouched(b, d0, d', cs[1..])
  {
    var rest := cs[1..];
    forall k | 0 <= k < |rest| && OnDisk(b, |d|, rest[k])
      ensures ClusterSectors(b, d', rest[k]) == ClusterSectors(b, d0, rest[k])
    {
      assert rest[k] == cs[k + 1] && cs[0] < cs[k + 1];
    }
  }

  /** What the body of the write loop finds: the next cluster to take and the next chunk to store in it. */
  lemma NextIsTaking(b: Bpb, d0: Image, d: Image, data: seq<byte>, ch: seq<nat>, c: nat,
                     bytesWritten: nat, previous: Option<u16>, first: u16)
    requires Writing(b, d0, d, data, ch, bytesWritten, previous, first)
    requires Fat(b, d0)[0] != FREE && Fat(b, d0)[1] != FREE && WriteStaysOnDisk(b, |d0|, Fat(b, d0), |data|)
    requires |ch| < ClustersNeeded(b, |data|) && |ch| * BytesPerCluster(b) <= |data|
    requires FreeClusters(Fat(b, d)) != [] && c == FreeClusters(Fat(b, d))[0]
    ensures Taking(b, d0, d, ch, c, data) && bytesWritten <= |data|
    ensures var chunkSize := Min(|data| - bytesWritten, BytesPerCluster(b));
      && data[bytesWritten..bytesWritten + chunkSize] == ChunkOf(b, data, |ch|)
      && bytesWritten + chunkSize == Min(|data|, (|ch| + 1) * BytesPerCluster(b))
  {
    ChunkEnd(b, |data|, |ch|);
    assert c == FreeClusters(Fat(b, d0))[|ch|];
  }

  /** Nothing in use changes in such an image. */
  lemma MidwayExtends(b: Bpb, d0: Image, images: seq<Image>, from: nat, data: seq<byte>)
    requires MetadataFits(b, d0) && AllMidway(b, d0, images, from, data)
    ensures AllExtend(b, d0, images, from, Allocated(Fat(b, d0)))
  {
    forall k | from <= k < |images| ensures Extends(b, d0, images[k], Allocated(Fat(b, d0))) {
      assert Midway(b, d0, images[k], data);
    }
  }

  /** Images `from..to` are all consistent and hold the files of `d0`. */
  ghost predicate FilesKept(b: Bpb, d0: Image, images: seq<Image>, from: nat, to: int)
    requires to <= |images| && Inv(b, d0)
  {
    forall k {:trigger Inv(b, images[k])} :: from <= k < to ==> Inv(b, images[k]) && Files(b, images[k]) == Files(b, d0)
  }

  lemma FilesKeptLater(b: Bpb, d0: Image, images: seq<Image>, images': seq<Image>, from: nat)
    requires Inv(b, d0) && FilesKept(b, d0, images, from, |images|)
    requires |images| <= |images'| && images'[..|images|] == images
    ensures FilesKept(b, d0, images', from, |images|)
  {
    forall k | from <= k < |images| ensures Inv(b, images'[k]) && Files(b, images'[k]) == Files(b, d0) {
      assert images'[k] == images[k];
      assert Inv(b, images[k]);
    }
  }

  lemma HistoryKeepsFiles(b: Bpb, d0: Image, images: seq<Image>, from: nat)
    requires Inv(b, d0) && AllExtend(b, d0, images, from, Allocated(Fat(b, d0)))
    ensures FilesKept(b, d0, images, from, |images|)
  {
    forall k | from <= k < |images| ensures Inv(b, images[k]) && Files(b, images[k]) == Files(b, d0) {
      ExtendsKeepsFiles(b, d0, images[k]);
    }
  }

  // ----- Creating a file -----

  /** `data.len() as u32`: a directory entry has 32 bits for the size. */
  function StoredSize(len: nat): (n: u32)
    ensures n <= len
    ensures len < 0x1_0000_0000 ==> n == len
  {
    len % 0x1_0000_0000
  }

  function NewEntry(name: FileName, ext: Extension, first: u16, len: nat): DirectoryEntry {
    DirectoryEntry(name, ext, 0x20, 0, 0, 0, 0, 0, 0, 0, 0, first, StoredSize(len))
  }

  /** The 32 bytes of a new file, byte by byte. */
  ghost predicate NewSlotBytes(s: seq<byte>, name: FileName, ext: Extension, first: nat, len: nat) {
    && |s| == 32 && s[0..8] == name && s[8..11] == ext && s[11] == 0x20
    && (forall k :: 12 <= k < 26 ==> s[k] == 0)
    && s[26] == first % 256 && s[27] == first / 256 && HoldsSize(s, len)
  }

  lemma NewFieldBytes(s: seq<byte>, name: FileName, ext: Extension, first: u16, len: nat)
    requires |s| == 32 && HoldsEntry(s, NewEntry(name, ext, first, len)) && HoldsSize(s, len)
    ensures NewSlotBytes(s, name, ext, first, len)
  {
    assert s[12] == s[13] == s[14] == s[15] == s[16] == s[17] == s[18] == 0;
    assert s[19] == s[20] == s[21] == s[22] == s[23] == s[24] == s[25] == 0;
    forall k | 12 <= k < 26 ensures s[k] == 0 {
      assert k == 12 || k == 13 || k == 14 || k == 15 || k == 16 || k == 17 || k == 18
          || k == 19 || k == 20 || k == 21 || k == 22 || k == 23 || k == 24 || k == 25;
    }
  }

  lemma NewEntryBytes(name: FileName, ext: Extension, first: u16, len: nat)
    ensures NewSlotBytes(Encode(NewEntry(name, ext, first, len)), name, ext, first, len)
  {
    var e := NewEntry(name, ext, first, len);
    EncodeLayout(e);
    EncodedSize(e, len);
    NewFieldBytes(Encode(e), name, ext, first, len);
  }

  /** Those bytes name the first cluster and the size. */
  lemma NewSlotDecodes(s: SlotBytes, name: FileName, ext: Extension, first: u16, len: nat)
    requires NewSlotBytes(s, name, ext, first, len)
    ensures Decode(s).fileSize == StoredSize(len) && Decode(s).clusterLow == first
  {
    SizeDecodes(s, len);
  }

  /** What a slot holds once an entry of that name has been written to it: some first bytes mean "no file". */
  function NewFile(name: FileName, ext: Extension, data: seq<byte>): File {
    if name[0] == UNUSED then Unused
    else if name[0] == DELETED then Deleted
    else File(name, ext, data[..StoredSize(|data|)])
  }

  /** The outcome of creating a file, decided by the directory and the free clusters alone. */
  function CreateOutcome(b: Bpb, d: Image, len: nat): Outcome
    requires MetadataFits(b, d)
  {
    if FirstEmpty(Slots(b, d), 0) == None then RootDirectoryFull
    else if |FreeClusters(Fat(b, d))| < ClustersNeeded(b, len) then DiskFull
    else Ok
  }

  /** `bytes` is an entry for a file of `len` bytes whose chain starts at `first`. */
  predicate Describes(bytes: SlotBytes, name: FileName, ext: Extension, first: nat, len: nat) {
    && bytes[0..8] == name && bytes[8..11] == ext
    && Decode(bytes).clusterLow == first && Decode(bytes).fileSize == StoredSize(len)
  }

  /** Clusters taken from the free list belong to no file. */
  lemma FreshChainIsOwned(b: Bpb, d0: Image, d: Image, ch: seq<nat>, data: seq<byte>, i: nat)
    requires Inv(b, d0) && Progress(b, d0, d, ch, data)
    ensures OwnedBy(Fat(b, d0), Slots(b, d0), i, ch)
  {
    var fat0, slots := Fat(b, d0), Slots(b, d0);
    FreeClustersAreFree(fat0);
    assert forall x :: x in ch ==> x in FreeClusters(fat0);
    forall j | 0 <= j < |slots| && j != i && !IsEmptySlot(slots[j])
      ensures Disjoint(SlotChain(fat0, slots[j]), ch) && Disjoint(ch, SlotChain(fat0, slots[j]))
    {
      ChainIsAllocated(fat0, SlotChain(fat0, slots[j]));
    }
  }

  /** An entry that points at a completely written chain reads as the data. */
  lemma WrittenChainReads(b: Bpb, d: Image, ch: seq<nat>, data: seq<byte>, bytes: SlotBytes)
    requires MetadataFits(b, d) && |Fat(b, d)| <= FIRST_END_MARK
    requires IsChain(Fat(b, d), ch) && Filled(b, d, ch, data) && |data| <= |ch| * BytesPerCluster(b)
    requires Decode(bytes).clusterLow == ch[0] && Decode(bytes).fileSize == StoredSize(|data|)
    ensures HasChain(b, |d|, Fat(b, d), bytes) && SlotChain(Fat(b, d), bytes) == ch
    ensures SlotData(b, d, bytes) == data[..StoredSize(|data|)]
  {
    ChainIsUnique(Fat(b, d), ch);
    ChainBytesLength(b, d, ch);
    var all, n := ChainBytes(b, d, ch), StoredSize(|data|);
    assert all[..|data|] == data;
    assert all[..n] == all[..|data|][..n];
  }

  /** While a write is in progress the chains of the used slots stay where they were. */
  lemma ProgressKeepsChains(b: Bpb, d0: Image, d: Image, ch: seq<nat>, data: seq<byte>, i: nat)
    requires Inv(b, d0) && Progress(b, d0, d, ch, data)
    ensures OwnedBy(Fat(b, d), Slots(b, d), i, ch)
  {
    var fat0, fat, slots := Fat(b, d0), Fat(b, d), Slots(b, d);
    FreshChainIsOwned(b, d0, d, ch, data, i);
    forall j | 0 <= j < |slots| && !IsEmptySlot(slots[j])
      ensures SlotChain(fat, slots[j]) == SlotChain(fat0, slots[j])
    {
      ChainIsAllocated(fat0, SlotChain(fat0, slots[j]));
      ExtendsKeepsFile(b, d0, d, Allocated(fat0), slots[j]);
    }
  }

  /** A finished creation: slot `i` of `d'` holds the new file on the smallest free clusters of `d0`. */
  ghost predicate Created(b: Bpb, d0: Image, d': Image, i: nat, file: File, need: nat) {
    && Inv(b, d0) && Inv(b, d') && i < SlotCount(b)
    && var free := FreeClusters(Fat(b, d0));
    && need <= |free|
    && OthersKept(b, d0, d', i)
    && Files(b, d') == Files(b, d0)[i := file]
    && SlotChain(Fat(b, d'), Slots(b, d')[i]) == free[..need]
    && FreeClusters(Fat(b, d')) == free[need..]
  }

  /** A creation that ran out of space: every slot is as it was, and nothing is free any more. */
  ghost predicate CreateFailed(b: Bpb, d0: Image, d': Image) {
    && Inv(b, d0) && Inv(b, d') && |d'| == |d0|
    && Slots(b, d') == Slots(b, d0) && Files(b, d') == Files(b, d0)
    && (forall j :: 0 <= j < SlotCount(b) ==> SlotKept(b, d0, d', j))
    && FreeClusters(Fat(b, d')) == []
  }

  /** While only free clusters are written to, every slot keeps its chain and its contents. */
  lemma ExtendsKeepsSlots(b: Bpb, d0: Image, d: Image)
    requires Inv(b, d0) && Extends(b, d0, d, Allocated(Fat(b, d0)))
    ensures Inv(b, d) && forall j :: 0 <= j < SlotCount(b) ==> SlotKept(b, d0, d, j)
  {
    ExtendsKeepsFiles(b, d0, d);
    var fat0, slots := Fat(b, d0), Slots(b, d0);
    forall j | 0 <= j < SlotCount(b) ensures SlotKept(b, d0, d, j) {
      if !IsEmptySlot(slots[j]) {
        ChainIsAllocated(fat0, SlotChain(fat0, slots[j]));
        ExtendsKeepsFile(b, d0, d, Allocated(fat0), slots[j]);
      }
      assert Files(b, d)[j] == Files(b, d0)[j];
    }
  }

  /** Writing the directory entry is the step that makes a new file visible, complete. */
  lemma CreateCommits(b: Bpb, d0: Image, d: Image, ch: seq<nat>, data: seq<byte>, i: nat,
                      bytes: SlotBytes, name: FileName, ext: Extension)
    requires Inv(b, d0) && Progress(b, d0, d, ch, data) && |ch| == ClustersNeeded(b, |data|)
    requires i < SlotCount(b) && IsEmptySlot(Slots(b, d0)[i]) && Describes(bytes, name, ext, ch[0], |data|)
    ensures Created(b, d0, WithSlot(b, d, i, bytes), i, NewFile(name, ext, data), |ch|)
  {
    ExtendsKeepsFiles(b, d0, d);
    ProgressKeepsChains(b, d0, d, ch, data, i);
    ClustersNeededIsLeast(b, |data|, |ch|);
    WrittenChainReads(b, d, ch, data, bytes);
    BlankKeepsConsistent(b, |d|, Fat(b, d), Slots(b, d), i);
    PublishSlot(b, d, i, bytes);
    SlotWriteKeepsRest(b, d, i, bytes);
    ExtendsKeepsSlots(b, d0, d);
    SlotWriteKeepsOthers(b, d0, d, i, bytes);
    assert bytes[0] == bytes[0..8][0];
    FilesUpdate(b, d0, WithSlot(b, d, i, bytes), i, NewFile(name, ext, data));
  }

  lemma BlankKeepsConsistent(b: Bpb, size: nat, fat: seq<u16>, slots: seq<SlotBytes>, i: nat)
    requires i < |slots| && Consistent(b, size, fat, slots)
    ensures Consistent(b, size, fat, slots[i := Blank()])
  {
    var blanked := slots[i := Blank()];
    assert forall j :: 0 <= j < |slots| && !IsEmptySlot(blanked[j]) ==> j != i && blanked[j] == slots[j];
  }

  // ----- Overwriting a file -----

  /** The table once the chain of slot `s` has been freed. */
  function FreedFat(fat: seq<u16>, s: SlotBytes): (fat': seq<u16>)
    requires Terminates(fat, Decode(s).clusterLow)
    ensures |fat'| == |fat|
  {
    Released(fat, SlotChain(fat, s))
  }

  /** The outcome of overwriting: the clusters of the old contents count as free. */
  function OverwriteOutcome(b: Bpb, d: Image, name: FileName, ext: Extension, len: nat): Outcome
    requires Inv(b, d)
  {
    match Lookup(Slots(b, d), name, ext, 0)
    case None => FileNotFound
    case Some(i) =>
      if |FreeClusters(Fat(b, d))| + |SlotChain(Fat(b, d), Slots(b, d)[i])| < ClustersNeeded(b, len) then DiskFull
      else Ok
  }

  /** Every slot but `i` is as it was in `d0`: same bytes, same chain, same contents. */
  ghost predicate OthersKept(b: Bpb, d0: Image, d: Image, i: nat)
    requires Inv(b, d0)
  {
    && |d| == |d0| && InvBut(b, d, i)
    && d[..b.reservedSectors] == d0[..b.reservedSectors]
    && forall j :: 0 <= j < SlotCount(b) && j != i ==> SlotKept(b, d0, d, j)
  }

  ghost predicate SlotKept(b: Bpb, d0: Image, d: Image, j: nat)
    requires Inv(b, d0) && MetadataFits(b, d) && j < SlotCount(b)
  {
    var s := Slots(b, d)[j];
    && s == Slots(b, d0)[j]
    && (!IsEmptySlot(s) ==> HasChain(b, |d|, Fat(b, d), s) && SlotChain(Fat(b, d), s) == SlotChain(Fat(b, d0), s))
    && FileOf(b, d, s) == Files(b, d0)[j]
  }

  /** Releasing a chain frees exactly its length and keeps every entry that stays allocated. */
  lemma ReleaseFrees(fat: seq<u16>, ch: seq<nat>)
    requires IsChain(fat, ch)
    ensures |FreeClusters(Released(fat, ch))| == |FreeClusters(fat)| + |ch|
    ensures forall c :: c in Allocated(Released(fat, ch)) ==> c < |fat| && Released(fat, ch)[c] == fat[c] != FREE
    ensures forall c :: 0 <= c < 2 && c < |fat| && fat[c] != FREE ==> c in Allocated(Released(fat, ch))
  {
    ChainIsAllocated(fat, ch);
    assert forall k :: 0 <= k < |ch| ==> ch[k] in ch;
    ReleasedEntries(fat, ch);
    ReleasedCount(fat, ch);
  }

  /** The clusters in use by anything but slot `i`, and the two reserved entries, survive its release. */
  lemma FreedKeeps(b: Bpb, d0: Image, i: nat)
    requires Inv(b, d0) && i < SlotCount(b) && !IsEmptySlot(Slots(b, d0)[i])
    ensures var fat0, s := Fat(b, d0), Slots(b, d0)[i];
      var keep := Allocated(FreedFat(fat0, s));
      && |FreeClusters(FreedFat(fat0, s))| == |FreeClusters(fat0)| + |SlotChain(fat0, s)|
      && 0 in keep && 1 in keep
      && (forall c :: c in keep ==> c < |fat0| && FreedFat(fat0, s)[c] == fat0[c] != FREE)
      && (forall j :: 0 <= j < SlotCount(b) && j != i && !IsEmptySlot(Slots(b, d0)[j]) ==>
            forall c :: c in SlotChain(fat0, Slots(b, d0)[j]) ==> c in keep)
  {
    var fat0, slots := Fat(b, d0), Slots(b, d0);
    var ch := SlotChain(fat0, slots[i]);
    ReleaseFrees(fat0, ch);
    forall j | 0 <= j < SlotCount(b) && j != i && !IsEmptySlot(slots[j])
      ensures forall c :: c in SlotChain(fat0, slots[j]) ==> c in Allocated(FreedFat(fat0, slots[i]))
    {
      ChainIsAllocated(fat0, SlotChain(fat0, slots[j]));
      ReleaseKeeps(fat0, ch, SlotChain(fat0, slots[j]));
    }
  }

  /** Releasing one chain keeps the entries of a chain disjoint from it. */
  lemma ReleaseKeeps(fat: seq<u16>, ch: seq<nat>, other: seq<nat>)
    requires AllBelow(ch, |fat|) && Disjoint(other, ch)
    requires forall c :: c in other ==> c < |fat| && fat[c] != FREE
    ensures forall c :: c in other ==> c in Allocated(Released(fat, ch))
  {
    ReleasedEntries(fat, ch);
  }

  lemma FreeingKeepsSlots(b: Bpb, d0: Image, d: Image, fat': seq<u16>)
    requires MetadataFits(b, d0) && |fat'| == |Fat(b, d0)|
    requires PartlyFreed(b, d0, d, ClusterCount(b), fat')
    ensures MetadataFits(b, d) && Slots(b, d) == Slots(b, d0)
  {
    FatBeforeRoot(b);
    forall i | 0 <= i < SlotCount(b) ensures Slot(b, d, i) == Slot(b, d0, i) {
      assert d[SlotSector(b, i)] == d0[SlotSector(b, i)];
    }
  }

  /** Freeing a chain, even partly, changes nothing that is kept. */
  lemma FreeingExtends(b: Bpb, d0: Image, d: Image, fat': seq<u16>)
    requires MetadataFits(b, d0) && |fat'| == |Fat(b, d0)|
    requires PartlyFreed(b, d0, d, ClusterCount(b), fat')
    requires forall c :: c in Allocated(fat') ==> fat'[c] == Fat(b, d0)[c]
    ensures Extends(b, d0, d, Allocated(fat')) && SameClusters(b, d0, d)
  {
    FatBeforeRoot(b);
    FullFatFits(b, d);
    FreeingKeepsSlots(b, d0, d, fat');
    forall x | OnDisk(b, |d|, x) ensures ClusterSectors(b, d, x) == ClusterSectors(b, d0, x) {
      ClusterBehindMetadata(b, x);
    }
  }

  lemma AllFreeingExtend(b: Bpb, d0: Image, images: seq<Image>, from: nat, fat': seq<u16>, c: nat)
    requires MetadataFits(b, d0) && |fat'| == |Fat(b, d0)|
    requires AllFreeing(b, d0, images, from, ClusterCount(b), fat', c)
    requires forall c :: c in Allocated(fat') ==> fat'[c] == Fat(b, d0)[c]
    ensures AllExtend(b, d0, images, from, Allocated(fat'))
  {
    forall k | from <= k < |images| ensures Extends(b, d0, images[k], Allocated(fat')) {
      assert FreeingImage(b, d0, images[k], ClusterCount(b), fat', c);
      FreeingExtends(b, d0, images[k], fat');
    }
  }

  lemma ExtendsTransitive(b: Bpb, d0: Image, d1: Image, d: Image, keep: set<nat>)
    requires Extends(b, d0, d1, keep) && Extends(b, d1, d, keep)
    ensures Extends(b, d0, d, keep)
  {
    forall c | c in keep && OnDisk(b, |d|, c) ensures ClusterSectors(b, d, c) == ClusterSectors(b, d0, c) {
      assert ClusterSectors(b, d1, c) == ClusterSectors(b, d0, c);
    }
  }

  lemma ExtendsKeepsOtherSlots(b: Bpb, d0: Image, d: Image, i: nat)
    requires Inv(b, d0) && i < SlotCount(b) && !IsEmptySlot(Slots(b, d0)[i])
    requires Extends(b, d0, d, Allocated(FreedFat(Fat(b, d0), Slots(b, d0)[i])))
    ensures OthersKept(b, d0, d, i)
  {
    FreedKeeps(b, d0, i);
    ExtendsKeepsOthers(b, d0, d, Allocated(FreedFat(Fat(b, d0), Slots(b, d0)[i])), i);
    forall j | 0 <= j < SlotCount(b) && j != i ensures SlotKept(b, d0, d, j) {
    }
  }

  /** Clusters that are free once slot `i` is released belong to no other slot. */
  lemma FreedIsOwned(b: Bpb, d0: Image, d: Image, ch: seq<nat>, i: nat)
    requires Inv(b, d0) && i < SlotCount(b) && !IsEmptySlot(Slots(b, d0)[i]) && OthersKept(b, d0, d, i)
    requires forall x :: x in ch ==> x in FreeClusters(FreedFat(Fat(b, d0), Slots(b, d0)[i]))
    ensures OwnedBy(Fat(b, d), Slots(b, d), i, ch)
  {
    var fat1, slots := FreedFat(Fat(b, d0), Slots(b, d0)[i]), Slots(b, d);
    FreedKeeps(b, d0, i);
    FreeClustersAreFree(fat1);
    forall j | 0 <= j < |slots| && j != i && !IsEmptySlot(slots[j])
      ensures Disjoint(SlotChain(Fat(b, d), slots[j]), ch) && Disjoint(ch, SlotChain(Fat(b, d), slots[j]))
    {
      assert SlotKept(b, d0, d, j);
      assert forall c :: c in SlotChain(Fat(b, d), slots[j]) ==> c in Allocated(fat1);
    }
  }

  /** The new chain shares no cluster with any other slot. */
  lemma NewChainIsOwned(b: Bpb, d0: Image, d1: Image, d: Image, ch: seq<nat>, data: seq<byte>, i: nat)
    requires Inv(b, d0) && i < SlotCount(b) && !IsEmptySlot(Slots(b, d0)[i]) && OthersKept(b, d0, d, i)
    requires Progress(b, d1, d, ch, data) && Fat(b, d1) == FreedFat(Fat(b, d0), Slots(b, d0)[i])
    ensures OwnedBy(Fat(b, d), Slots(b, d), i, ch)
  {
    assert forall x :: x in ch ==> x in FreeClusters(Fat(b, d1));
    FreedIsOwned(b, d0, d, ch, i);
  }

  /** A finished overwrite: only slot `i` changed, and it holds the new data on the smallest free clusters. */
  ghost predicate Overwritten(b: Bpb, d0: Image, d': Image, i: nat, name: FileName, ext: Extension, data: seq<byte>)
    requires Inv(b, d0) && i < SlotCount(b) && !IsEmptySlot(Slots(b, d0)[i])
  {
    && Inv(b, d') && OthersKept(b, d0, d', i)
    && var s, s' := Slots(b, d0)[i], Slots(b, d')[i];
    && var free, need := FreeClusters(FreedFat(Fat(b, d0), s)), ClustersNeeded(b, |data|);
    && need <= |free|
    && Files(b, d') == Files(b, d0)[i := File(name, ext, data[..StoredSize(|data|)])]
    && SlotChain(Fat(b, d'), s') == free[..need]
    && FreeClusters(Fat(b, d')) == free[need..]
    && Decode(s') == Decode(s).(clusterLow := Decode(s').clusterLow, fileSize := StoredSize(|data|))
  }

  /** Byte by byte, only the first cluster and the size of an overwritten entry change. */
  lemma OverwrittenBytes(b: Bpb, d0: Image, d': Image, i: nat, name: FileName, ext: Extension, data: seq<byte>)
    requires Inv(b, d0) && i < SlotCount(b) && !IsEmptySlot(Slots(b, d0)[i])
    requires Overwritten(b, d0, d', i, name, ext, data)
    ensures var s, s', first, len := Slots(b, d0)[i], Slots(b, d')[i], SlotChain(Fat(b, d'), Slots(b, d')[i])[0], |data|;
      s'[..26] == s[..26] && s'[26] == first % 256 && s'[27] == first / 256 && HoldsSize(s', len)
  {
    var s, s' := Slots(b, d0)[i], Slots(b, d')[i];
    ChainHead(Fat(b, d'), Decode(s').clusterLow);
    PatchedBytes(s, s', Decode(s').clusterLow, |data|);
  }

  /** Putting other bytes into slot `i` does not touch the other slots. */
  lemma SlotWriteKeepsOthers(b: Bpb, d0: Image, d: Image, i: nat, bytes: SlotBytes)
    requires Inv(b, d0) && i < SlotCount(b) && OthersKept(b, d0, d, i)
    ensures OthersKept(b, d0, WithSlot(b, d, i, bytes), i)
  {
    var d' := WithSlot(b, d, i, bytes);
    SlotWriteKeepsRest(b, d, i, bytes);
    assert Slots(b, d')[i := Blank()] == Slots(b, d)[i := Blank()];
    forall j | 0 <= j < SlotCount(b) && j != i ensures SlotKept(b, d0, d', j) {
      assert SlotKept(b, d0, d, j);
      var s := Slots(b, d)[j];
      if !IsEmptySlot(s) {
        ChainBytesFrame(b, d, d', SlotChain(Fat(b, d), s));
      }
    }
  }

  lemma FilesUpdate(b: Bpb, d0: Image, d: Image, i: nat, file: File)
    requires Inv(b, d0) && Inv(b, d) && i < SlotCount(b) && OthersKept(b, d0, d, i)
    requires FileOf(b, d, Slots(b, d)[i]) == file
    ensures Files(b, d) == Files(b, d0)[i := file]
  {
    forall j | 0 <= j < SlotCount(b) ensures Files(b, d)[j] == Files(b, d0)[i := file][j] {
      assert j == i || SlotKept(b, d0, d, j);
    }
  }

  lemma OverwriteCommits(b: Bpb, d0: Image, d1: Image, d: Image, ch: seq<nat>, data: seq<byte>, i: nat,
                         bytes: SlotBytes, name: FileName, ext: Extension)
    requires Inv(b, d0) && i < SlotCount(b) && Matches(Slots(b, d0)[i], name, ext) && OthersKept(b, d0, d, i)
    requires Progress(b, d1, d, ch, data) && Fat(b, d1) == FreedFat(Fat(b, d0), Slots(b, d0)[i])
    requires |ch| == ClustersNeeded(b, |data|) && Describes(bytes, name, ext, ch[0], |data|)
    requires Decode(bytes) == Decode(Slots(b, d0)[i]).(clusterLow := Decode(bytes).clusterLow, fileSize := StoredSize(|data|))
    ensures Overwritten(b, d0, WithSlot(b, d, i, bytes), i, name, ext, data)
  {
    var d' := WithSlot(b, d, i, bytes);
    ClustersNeededIsLeast(b, |data|, |ch|);
    WrittenChainReads(b, d, ch, data, bytes);
    NewChainIsOwned(b, d0, d1, d, ch, data, i);
    PublishSlot(b, d, i, bytes);
    SlotWriteKeepsRest(b, d, i, bytes);
    SlotWriteKeepsOthers(b, d0, d, i, bytes);
    assert bytes[0] == bytes[0..8][0] && Slots(b, d0)[i][0] == Slots(b, d0)[i][0..8][0];
    FilesUpdate(b, d0, d', i, File(name, ext, data[..StoredSize(|data|)]));
  }

  /** The first place of `x` from `from` on, or the length if there is none. */
  function Position(s: seq<nat>, x: nat, from: nat): (i: nat)
    requires from <= |s|
    ensures from <= i <= |s| && (i < |s| ==> s[i] == x) && forall k :: from <= k < i ==> s[k] != x
    decreases |s| - from
  {
    if from == |s| || s[from] == x then from else Position(s, x, from + 1)
  }

  function IndexOf(s: seq<nat>, x: nat): (i: nat)
    requires x in s
    ensures i < |s| && s[i] == x
  {
    Position(s, x, 0)
  }

  /**
   * What a failed overwrite leaves in the slot: the entry still names the old first cluster, which by
   * then holds a later part of the new data.
   */
  function Leftover(b: Bpb, free: seq<nat>, start: nat, oldSize: nat, data: seq<byte>): seq<byte>
    requires start in free && |free| * BytesPerCluster(b) <= |data|
  {
    var from := IndexOf(free, start) * BytesPerCluster(b);
    var to := |free| * BytesPerCluster(b);
    ClusterOffsets(b, IndexOf(free, start), |free|);
    data[from..Min(from + oldSize, to)]
  }

  lemma ClusterOffsets(b: Bpb, m: nat, n: nat)
    requires m <= n
    ensures m * BytesPerCluster(b) <= n * BytesPerCluster(b)
  {
    MulGrows(m, n, BytesPerCluster(b));
  }

  ghost predicate Damaged(b: Bpb, d0: Image, d': Image, i: nat, name: FileName, ext: Extension, data: seq<byte>)
    requires Inv(b, d0) && i < SlotCount(b) && !IsEmptySlot(Slots(b, d0)[i])
  {
    && Inv(b, d') && OthersKept(b, d0, d', i) && Slots(b, d') == Slots(b, d0)
    && FreeClusters(Fat(b, d')) == []
    && var s := Slots(b, d0)[i];
    && var free, start := FreeClusters(FreedFat(Fat(b, d0), s)), Decode(s).clusterLow;
    && start in free && |free| * BytesPerCluster(b) <= |data|
    && SlotChain(Fat(b, d'), s) == free[IndexOf(free, start)..]
    && Files(b, d') == Files(b, d0)[i := File(name, ext, Leftover(b, free, start, Decode(s).fileSize, data))]
  }

  /** The bytes of `data` that go into clusters `p..q` of its chain. */
  function Part(b: Bpb, data: seq<byte>, p: nat, q: nat): seq<byte>
    requires p <= q && q * BytesPerCluster(b) <= |data|
  {
    ClusterOffsets(b, p, q);
    data[p * BytesPerCluster(b)..q * BytesPerCluster(b)]
  }

  lemma CutFront(front: seq<byte>, back: seq<byte>, data: seq<byte>, from: nat, to: nat)
    requires from <= to <= |data| && front == data[..from] && front + back == data[..to]
    ensures back == data[from..to]
  {
    assert back == (front + back)[from..];
  }

  /** A filled chain holds its part of the data in any stretch of clusters. */
  lemma StretchStored(b: Bpb, d: Image, ch: seq<nat>, p: nat, q: nat, data: seq<byte>)
    requires p <= q <= |ch| && |ch| * BytesPerCluster(b) <= |data| && Filled(b, d, ch, data)
    ensures q * BytesPerCluster(b) <= |data| && ChainBytes(b, d, ch[p..q]) == Part(b, data, p, q)
  {
    ClusterOffsets(b, p, q);
    FrontStored(b, d, ch, q, data);
    FrontStored(b, d, ch, p, data);
    assert ch[..q] == ch[..p] + ch[p..q];
    ChainBytesAppend(b, d, ch[..p], ch[p..q]);
    CutFront(ChainBytes(b, d, ch[..p]), ChainBytes(b, d, ch[p..q]), data, p * BytesPerCluster(b), q * BytesPerCluster(b));
  }

  lemma FrontStored(b: Bpb, d: Image, ch: seq<nat>, q: nat, data: seq<byte>)
    requires q <= |ch| && |ch| * BytesPerCluster(b) <= |data| && Filled(b, d, ch, data)
    ensures q * BytesPerCluster(b) <= |data|
    ensures ChainBytes(b, d, ch[..q]) == data[..q * BytesPerCluster(b)]
  {
    ClusterOffsets(b, q, |ch|);
    ChainBytesLength(b, d, ch);
    ChainBytesLength(b, d, ch[..q]);
    assert ch == ch[..q] + ch[q..];
    ChainBytesAppend(b, d, ch[..q], ch[q..]);
    var front, all := ChainBytes(b, d, ch[..q]), ChainBytes(b, d, ch);
    assert front == all[..|front|];
  }

  lemma SliceFront(data: seq<byte>, from: nat, to: nat, size: nat)
    requires from <= to <= |data|
    ensures data[from..to][..Min(size, to - from)] == data[from..Min(from + size, to)]
  {
  }

  lemma SuffixStored(b: Bpb, d: Image, ch: seq<nat>, p: nat, size: nat, data: seq<byte>)
    requires AllOnDisk(b, |d|, ch) && p < |ch| && |ch| * BytesPerCluster(b) <= |data|
    requires Filled(b, d, ch, data)
    ensures var from, to := p * BytesPerCluster(b), |ch| * BytesPerCluster(b);
      from <= to && Stored(b, d, ch[p..], size) == data[from..Min(from + size, to)]
  {
    ClusterOffsets(b, p, |ch|);
    assert ch[p..|ch|] == ch[p..];
    StretchStored(b, d, ch, p, |ch|, data);
    SliceFront(data, p * BytesPerCluster(b), |ch| * BytesPerCluster(b), size);
  }

  /** Freeing a chain makes its first cluster free. */
  lemma StartIsFreed(fat: seq<u16>, s: SlotBytes)
    requires Terminates(fat, Decode(s).clusterLow)
    ensures Decode(s).clusterLow in FreeClusters(FreedFat(fat, s))
  {
    var ch := SlotChain(fat, s);
    ReleasedEntries(fat, ch);
    FreeClustersAreFree(FreedFat(fat, s));
    assert ch[0] == Decode(s).clusterLow && ch[0] in ch;
  }

  /** The old entry is sound again once its start heads a chain made of clusters that were released or free. */
  lemma OldEntryIsSound(b: Bpb, d0: Image, d: Image, ch: seq<nat>, i: nat)
    requires Inv(b, d0) && i < SlotCount(b) && !IsEmptySlot(Slots(b, d0)[i]) && OthersKept(b, d0, d, i)
    requires Slots(b, d) == Slots(b, d0) && IsChain(Fat(b, d), ch) && AllOnDisk(b, |d|, ch)
    requires ch[0] == Decode(Slots(b, d0)[i]).clusterLow
    requires forall x :: x in ch ==> x in FreeClusters(FreedFat(Fat(b, d0), Slots(b, d0)[i]))
    ensures Inv(b, d) && SlotChain(Fat(b, d), Slots(b, d)[i]) == ch
  {
    var fat, slots := Fat(b, d), Slots(b, d);
    ChainIsUnique(fat, ch);
    FreedIsOwned(b, d0, d, ch, i);
    assert HasChain(b, |d|, fat, slots[i]);
    Republish(b, |d|, fat, slots, i, slots[i]);
    assert slots[i := slots[i]] == slots;
  }

  /** When an overwrite runs out of space every cluster it freed is in use again. */
  lemma OldEntryStaysSound(b: Bpb, d0: Image, d1: Image, d: Image, ch: seq<nat>, data: seq<byte>, i: nat)
    requires Inv(b, d0) && i < SlotCount(b) && !IsEmptySlot(Slots(b, d0)[i]) && OthersKept(b, d0, d, i)
    requires Progress(b, d1, d, ch, data) && Fat(b, d1) == FreedFat(Fat(b, d0), Slots(b, d0)[i])
    requires Slots(b, d) == Slots(b, d0) && |ch| == |FreeClusters(Fat(b, d1))|
    ensures var s := Slots(b, d0)[i];
      && Inv(b, d) && Decode(s).clusterLow in ch
      && SlotChain(Fat(b, d), s) == ch[IndexOf(ch, Decode(s).clusterLow)..]
  {
    var start := Decode(Slots(b, d0)[i]).clusterLow;
    assert ch == FreeClusters(Fat(b, d1)) && start in ch by {
      StartIsFreed(Fat(b, d0), Slots(b, d0)[i]);
    }
    var p := IndexOf(ch, start);
    assert IsChain(Fat(b, d), ch[p..]) by {
      ChainSuffix(Fat(b, d), ch, p);
    }
    assert forall x :: x in ch[p..] ==> x in ch;
    OldEntryIsSound(b, d0, d, ch[p..], i);
  }

  /** What such an entry reads as. */
  lemma LeftoverReads(b: Bpb, d: Image, s: SlotBytes, ch: seq<nat>, data: seq<byte>, name: FileName, ext: Extension)
    requires MetadataFits(b, d) && Matches(s, name, ext) && HasChain(b, |d|, Fat(b, d), s)
    requires Decode(s).clusterLow in ch && Filled(b, d, ch, data) && |ch| * BytesPerCluster(b) <= |data|
    requires SlotChain(Fat(b, d), s) == ch[IndexOf(ch, Decode(s).clusterLow)..]
    ensures FileOf(b, d, s) == File(name, ext, Leftover(b, ch, Decode(s).clusterLow, Decode(s).fileSize, data))
  {
    var p := IndexOf(ch, Decode(s).clusterLow);
    SuffixStored(b, d, ch, p, Decode(s).fileSize, data);
  }

  lemma OverwriteFails(b: Bpb, d0: Image, d1: Image, d: Image, ch: seq<nat>, data: seq<byte>, i: nat,
                       name: FileName, ext: Extension)
    requires Inv(b, d0) && i < SlotCount(b) && Matches(Slots(b, d0)[i], name, ext) && OthersKept(b, d0, d, i)
    requires Progress(b, d1, d, ch, data) && Fat(b, d1) == FreedFat(Fat(b, d0), Slots(b, d0)[i])
    requires Slots(b, d) == Slots(b, d0) && |ch| == |FreeClusters(Fat(b, d1))| < ClustersNeeded(b, |data|)
    ensures Damaged(b, d0, d, i, name, ext, data)
  {
    var s := Slots(b, d0)[i];
    var start := Decode(s).clusterLow;
    OldEntryStaysSound(b, d0, d1, d, ch, data, i);
    assert ch == FreeClusters(Fat(b, d1));
    assert |ch| * BytesPerCluster(b) <= |data| by {
      ClustersNeededIsLeast(b, |data|, |ch|);
    }
    LeftoverReads(b, d, s, ch, data, name, ext);
    FilesUpdate(b, d0, d, i, File(name, ext, Leftover(b, ch, start, Decode(s).fileSize, data)));
  }

  // ----- Power loss during an overwrite -----

  /**
   * The entry `s` heads clusters `p..m` of `free`. All but the last hold their part of the new data; the last one holds
   * its part in the sectors written so far, and in the others what was there in `d0`. The entry reads as their bytes.
   */
  ghost predicate TornAt(b: Bpb, d0: Image, d: Image, s: SlotBytes, free: seq<nat>, p: nat, m: nat, data: seq<byte>)
    requires MetadataFits(b, d) && HasChain(b, |d|, Fat(b, d), s)
  {
    && p < m <= |free| && SlotChain(Fat(b, d), s) == free[p..m]
    && (m - 1) * BytesPerCluster(b) <= |data|
    && PartlyFilled(b, d0, d, free[m - 1], ChunkOf(b, data, m - 1))
    && var all := Part(b, data, p, m - 1) + ClusterBytes(b, d, free[m - 1]);
    && SlotData(b, d, s) == all[..Min(Decode(s).fileSize, |all|)]
  }

  /**
   * An image in the middle of an overwrite of slot `i`: it is consistent exactly when the old first cluster is not
   * free. The slot then reads as a later part of the new data, as far as it has been written.
   */
  ghost predicate Torn(b: Bpb, d0: Image, d: Image, i: nat, data: seq<byte>)
    requires Inv(b, d0) && i < SlotCount(b) && !IsEmptySlot(Slots(b, d0)[i])
  {
    && MetadataFits(b, d) && Slots(b, d) == Slots(b, d0)
    && var s := Slots(b, d0)[i];
    && var free, start := FreeClusters(FreedFat(Fat(b, d0), s)), Decode(s).clusterLow;
    && start < ClusterCount(b) && start in free
    && (Inv(b, d) <==> Fat(b, d)[start] != FREE)
    && (Inv(b, d) ==> exists m :: TornAt(b, d0, d, s, free, IndexOf(free, start), m, data))
  }

  /** A slot whose start cluster is free makes an image inconsistent. */
  lemma FreeStartIsUnsound(b: Bpb, d0: Image, d: Image, i: nat, data: seq<byte>)
    requires Inv(b, d0) && i < SlotCount(b) && !IsEmptySlot(Slots(b, d0)[i])
    requires MetadataFits(b, d) && Slots(b, d) == Slots(b, d0)
    requires Decode(Slots(b, d0)[i]).clusterLow < ClusterCount(b) && Fat(b, d)[Decode(Slots(b, d0)[i]).clusterLow] == FREE
    ensures !Inv(b, d) && Torn(b, d0, d, i, data)
  {
    var s := Slots(b, d0)[i];
    StartIsFreed(Fat(b, d0), s);
    if Inv(b, d) {
      assert HasChain(b, |d|, Fat(b, d), s);
      ChainIsAllocated(Fat(b, d), SlotChain(Fat(b, d), s));
      ChainHead(Fat(b, d), Decode(s).clusterLow);
    }
  }

  /** The part of the new chain that starts at its cluster `p`, when `m` of `n` clusters are linked. */
  lemma TakenChain(fat: seq<u16>, free: seq<nat>, n: nat, m: nat, p: nat) returns (m': nat)
    requires |fat| <= FIRST_END_MARK && 1 <= n <= |free| && n - 1 <= m <= n && p < n
    requires m > 0 ==> IsChain(fat, free[..m])
    requires m < n ==> 2 <= free[n - 1] < |fat| && fat[free[n - 1]] >= FIRST_END_MARK
    ensures p < m' <= n && n - 1 <= m'
    ensures IsChain(fat, free[p..m'])
  {
    if p < m {
      m' := m;
      ChainSuffix(fat, free[..m], p);
      assert free[..m][p..] == free[p..m];
    } else {
      m' := n;
      assert free[p..n] == [free[n - 1]];
    }
  }

  lemma TakenOnDisk(b: Bpb, d: Image, free: seq<nat>, n: nat, p: nat, m': nat)
    requires p <= m' <= n <= |free| && 1 <= n && AllOnDisk(b, |d|, free[..n - 1]) && OnDisk(b, |d|, free[n - 1])
    ensures AllOnDisk(b, |d|, free[p..m'])
  {
    forall k | 0 <= k < n ensures OnDisk(b, |d|, free[k]) {
      assert k == n - 1 || free[..n - 1][k] == free[k];
    }
  }

  /** If the old first cluster is among those taken, the old entry is sound and reads as a part of the new data. */
  lemma TakenIsTorn(b: Bpb, d0: Image, d: Image, i: nat, data: seq<byte>, free: seq<nat>, n: nat, m: nat, p: nat)
    requires Inv(b, d0) && i < SlotCount(b) && !IsEmptySlot(Slots(b, d0)[i]) && OthersKept(b, d0, d, i)
    requires Slots(b, d) == Slots(b, d0) && free == FreeClusters(FreedFat(Fat(b, d0), Slots(b, d0)[i]))
    requires p < n <= |free| && n - 1 <= m <= n && Decode(Slots(b, d0)[i]).clusterLow == free[p]
    requires m > 0 ==> IsChain(Fat(b, d), free[..m])
    requires m < n ==> 2 <= free[n - 1] < ClusterCount(b) && Fat(b, d)[free[n - 1]] >= FIRST_END_MARK
    requires OnDisk(b, |d|, free[n - 1])
    requires (n - 1) * BytesPerCluster(b) <= |data| && Filled(b, d, free[..n - 1], data)
    requires PartlyFilled(b, d0, d, free[n - 1], ChunkOf(b, data, n - 1))
    ensures Inv(b, d) && exists m' :: TornAt(b, d0, d, Slots(b, d0)[i], free, p, m', data)
  {
    var m' := TakenChain(Fat(b, d), free, n, m, p);
    TakenOnDisk(b, d, free, n, p, m');
    assert forall x :: x in free[p..m'] ==> x in free;
    OldEntryIsSound(b, d0, d, free[p..m'], i);
    TakenReads(b, d0, d, Slots(b, d0)[i], free, n, p, m', data);
  }

  lemma MidwayIsTorn(b: Bpb, d0: Image, d1: Image, d: Image, i: nat, data: seq<byte>)
    requires Inv(b, d0) && i < SlotCount(b) && !IsEmptySlot(Slots(b, d0)[i]) && OthersKept(b, d0, d, i)
    requires Slots(b, d) == Slots(b, d0) && MetadataFits(b, d1) && Fat(b, d1) == FreedFat(Fat(b, d0), Slots(b, d0)[i])
    requires Midway(b, d1, d, data) && SameClusters(b, d0, d1)
    ensures Torn(b, d0, d, i, data)
  {
    var s, free := Slots(b, d0)[i], FreeClusters(Fat(b, d1));
    StartIsFreed(Fat(b, d0), s);
    FreeClustersAreFree(Fat(b, d1));
    var p := IndexOf(free, Decode(s).clusterLow);
    var n, m :| MidwayAt(b, d1, d, n, m, data);
    StartIsTaken(b, d1, d, n, m, data, p);
    if p < n {
      assert PartlyFilled(b, d0, d, free[n - 1], ChunkOf(b, data, n - 1));
      TakenIsTorn(b, d0, d, i, data, free, n, m, p);
    } else {
      FreeStartIsUnsound(b, d0, d, i, data);
    }
  }

  /** The clusters before position `n` are in use, the others are free. */
  lemma StartIsTaken(b: Bpb, d1: Image, d: Image, n: nat, m: nat, data: seq<byte>, p: nat)
    requires MidwayAt(b, d1, d, n, m, data) && p < |FreeClusters(Fat(b, d1))|
    ensures FreeClusters(Fat(b, d1))[p] < ClusterCount(b)
    ensures Fat(b, d)[FreeClusters(Fat(b, d1))[p]] == FREE <==> p >= n
  {
    var free := FreeClusters(Fat(b, d1));
    FreeClustersAreFree(Fat(b, d1));
    FreeClustersAreFree(Fat(b, d));
    assert free[p] in free;
    if p >= n {
      assert free[n..][p - n] == free[p];
    }
  }

  /** A filled cluster is partly filled: up to its last sector. */
  lemma FullIsPartly(b: Bpb, d0: Image, d: Image, ch: seq<nat>, q: nat, data: seq<byte>)
    requires q < |ch| && |ch| * BytesPerCluster(b) <= |data| && Filled(b, d, ch, data) && |d| == |d0|
    ensures q * BytesPerCluster(b) <= |data| && PartlyFilled(b, d0, d, ch[q], ChunkOf(b, data, q))
  {
    var c := ch[q];
    ClusterOffsets(b, q + 1, |ch|);
    ClusterOffsets(b, q, q + 1);
    StretchStored(b, d, ch, q, q + 1, data);
    assert ch[q..q + 1] == [c];
    assert ChainBytes(b, d, [c]) == ClusterBytes(b, d, c);
    assert FilledUpTo(ClusterSectors(b, d0, c), ClusterSectors(b, d, c), ChunkOf(b, data, q), b.sectorsPerCluster);
  }

  /** The bytes of clusters `p..m` when the first `n - 1` are filled. */
  lemma TakenBytes(b: Bpb, d: Image, free: seq<nat>, n: nat, p: nat, m: nat, data: seq<byte>)
    requires p < m <= n <= |free| && OnDisk(b, |d|, free[n - 1])
    requires (n - 1) * BytesPerCluster(b) <= |data| && Filled(b, d, free[..n - 1], data)
    ensures AllOnDisk(b, |d|, free[p..m]) && Fits(b, |d|, free[m - 1]) && (m - 1) * BytesPerCluster(b) <= |data|
    ensures ChainBytes(b, d, free[p..m]) == Part(b, data, p, m - 1) + ClusterBytes(b, d, free[m - 1])
  {
    var xs, c := free[p..m - 1], free[m - 1];
    TakenOnDisk(b, d, free, n, p, m - 1);
    TakenOnDisk(b, d, free, n, m - 1, m);
    assert free[m - 1..m] == [c] && free[p..m] == xs + [c] && free[..n - 1][p..m - 1] == xs;
    StretchStored(b, d, free[..n - 1], p, m - 1, data);
    ChainBytesAppend(b, d, xs, [c]);
    assert ChainBytes(b, d, [c]) == ClusterBytes(b, d, c);
  }

  lemma TakenReads(b: Bpb, d0: Image, d: Image, s: SlotBytes, free: seq<nat>, n: nat, p: nat, m: nat, data: seq<byte>)
    requires MetadataFits(b, d) && HasChain(b, |d|, Fat(b, d), s) && p < m <= n <= |free| && n - 1 <= m && |d| == |d0|
    requires SlotChain(Fat(b, d), s) == free[p..m] && OnDisk(b, |d|, free[n - 1])
    requires (n - 1) * BytesPerCluster(b) <= |data| && Filled(b, d, free[..n - 1], data)
    requires PartlyFilled(b, d0, d, free[n - 1], ChunkOf(b, data, n - 1))
    ensures TornAt(b, d0, d, s, free, p, m, data)
  {
    TakenBytes(b, d, free, n, p, m, data);
    if m < n {
      assert free[..n - 1][m - 1] == free[m - 1];
      FullIsPartly(b, d0, d, free[..n - 1], m - 1, data);
    }
  }

  /** Images `from..to` are all images of an overwrite of slot `i` that is under way. */
  ghost predicate AllTorn(b: Bpb, d0: Image, images: seq<Image>, from: nat, to: nat, i: nat, data: seq<byte>)
    requires Inv(b, d0) && i < SlotCount(b) && !IsEmptySlot(Slots(b, d0)[i]) && to <= |images|
  {
    forall k {:trigger Torn(b, d0, images[k], i, data)} :: from <= k < to ==> Torn(b, d0, images[k], i, data)
  }

  lemma ReleasedIsTorn(b: Bpb, d0: Image, images: seq<Image>, from: nat, i: nat, data: seq<byte>, fat': seq<u16>, keep: set<nat>)
    requires Inv(b, d0) && i < SlotCount(b) && !IsEmptySlot(Slots(b, d0)[i]) && |fat'| == ClusterCount(b)
    requires AllExtend(b, d0, images, from, keep)
    requires AllFreeing(b, d0, images, from, ClusterCount(b), fat', Decode(Slots(b, d0)[i]).clusterLow)
    requires Decode(Slots(b, d0)[i]).clusterLow < ClusterCount(b)
    ensures AllTorn(b, d0, images, from, |images|, i, data)
    ensures from < |images| ==> !Inv(b, images[from])
  {
    var start := Decode(Slots(b, d0)[i]).clusterLow;
    forall k | from <= k < |images| ensures Torn(b, d0, images[k], i, data) && !Inv(b, images[k]) {
      assert Extends(b, d0, images[k], keep);
      assert FreeingImage(b, d0, images[k], ClusterCount(b), fat', start);
      FreeStartIsUnsound(b, d0, images[k], i, data);
    }
  }

  /** The images of an overwrite: the release first, then the write. */
  lemma TornJoin(b: Bpb, d0: Image, d1: Image, h1: seq<Image>, images: seq<Image>, from: nat, i: nat, data: seq<byte>)
    requires Inv(b, d0) && i < SlotCount(b) && !IsEmptySlot(Slots(b, d0)[i]) && h1 <= images
    requires MetadataFits(b, d1) && Slots(b, d1) == Slots(b, d0) && Fat(b, d1) == FreedFat(Fat(b, d0), Slots(b, d0)[i])
    requires AllTorn(b, d0, h1, from, |h1|, i, data)
    requires AllMidway(b, d1, images, |h1|, data) && AllOthersKept(b, d0, images, from, i) && SameClusters(b, d0, d1)
    ensures AllTorn(b, d0, images, from, |images|, i, data)
  {
    forall k | from <= k < |images| ensures Torn(b, d0, images[k], i, data) {
      if k < |h1| {
        assert Torn(b, d0, h1[k], i, data);
      } else {
        assert OthersKept(b, d0, images[k], i) && Midway(b, d1, images[k], data);
        MidwayIsTorn(b, d0, d1, images[k], i, data);
      }
    }
  }

  /** In every image from `from` on, every slot but `i` is as it was in `d0`. */
  ghost predicate AllOthersKept(b: Bpb, d0: Image, images: seq<Image>, from: nat, i: nat)
    requires Inv(b, d0)
  {
    forall k {:trigger OthersKept(b, d0, images[k], i)} :: from <= k < |images| ==> OthersKept(b, d0, images[k], i)
  }

  lemma OthersKeptMore(b: Bpb, d0: Image, images: seq<Image>, d: Image, from: nat, i: nat)
    requires Inv(b, d0) && AllOthersKept(b, d0, images, from, i) && OthersKept(b, d0, d, i)
    ensures AllOthersKept(b, d0, images + [d], from, i)
  {
    var images' := images + [d];
    forall k | from <= k < |images'| ensures OthersKept(b, d0, images'[k], i) {
      assert k == |images| || OthersKept(b, d0, images[k], i);
    }
  }

  lemma HistoryKeepsOthers(b: Bpb, d0: Image, images: seq<Image>, from: nat, i: nat)
    requires Inv(b, d0) && i < SlotCount(b) && !IsEmptySlot(Slots(b, d0)[i])
    requires AllExtend(b, d0, images, from, Allocated(FreedFat(Fat(b, d0), Slots(b, d0)[i])))
    ensures AllOthersKept(b, d0, images, from, i)
  {
    forall k | from <= k < |images| ensures OthersKept(b, d0, images[k], i) {
      ExtendsKeepsOtherSlots(b, d0, images[k], i);
    }
  }

  lemma AllExtendJoin(b: Bpb, d0: Image, d1: Image, h1: seq<Image>, h: seq<Image>, from: nat, keep: set<nat>)
    requires Extends(b, d0, d1, keep) && h1 <= h
    requires AllExtend(b, d0, h1, from, keep) && AllExtend(b, d1, h, |h1|, keep)
    ensures AllExtend(b, d0, h, from, keep)
  {
    forall k | from <= k < |h| ensures Extends(b, d0, h[k], keep) {
      if k < |h1| {
        assert Extends(b, d0, h1[k], keep);
      } else {
        ExtendsTransitive(b, d0, d1, h[k], keep);
      }
    }
  }
}
