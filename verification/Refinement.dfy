/** The bytes on the drive refine the ledger: what an operation leaves is the ledger's own next state. */
module Refinement {
  import opened Basics
  import opened Bytes
  import opened Disk
  import opened Layout
  import opened FatTable
  import opened Chains
  import opened Directory
  import opened Volume
  import opened Storage
  import opened Space
  import opened Ledger

  /** What a slot contributes to the ledger. */
  function RecordOf(b: Bpb, d: Image, i: nat): Record
    requires Inv(b, d) && i < SlotCount(b)
  {
    var s := Slots(b, d)[i];
    if IsEmptySlot(s) then Record(Files(b, d)[i], [], 0)
    else Record(Files(b, d)[i], SlotChain(Fat(b, d), s), Decode(s).fileSize)
  }

  /** The ledger an image stands for. */
  function LedgerOf(b: Bpb, d: Image): (l: Ledger)
    requires Inv(b, d)
    ensures Sound(l) && |l.records| == SlotCount(b) && FilesOf(l) == Files(b, d)
  {
    Ledger(seq(SlotCount(b), i requires 0 <= i < SlotCount(b) => RecordOf(b, d, i)), FreeClusters(Fat(b, d)))
  }

  // ----- The scans -----

  /** The file shows exactly what the scans look at in the slot. */
  predicate Shows(f: File, s: SlotBytes, name: FileName, ext: Extension) {
    && (s[0] == UNUSED <==> f.Unused?) && (IsEmptySlot(s) <==> !f.File?)
    && (Matches(s, name, ext) <==> Named(f, name, ext))
  }

  lemma FileOfSlot(b: Bpb, d: Image, i: nat, name: FileName, ext: Extension)
    requires Inv(b, d) && i < SlotCount(b)
    ensures Shows(Files(b, d)[i], Slots(b, d)[i], name, ext)
  {
  }

  lemma {:induction false} PointwiseScans(slots: seq<SlotBytes>, files: seq<File>, name: FileName, ext: Extension, from: nat)
    requires |slots| == |files| && from <= |slots|
    requires forall i :: 0 <= i < |slots| ==> Shows(files[i], slots[i], name, ext)
    ensures Lookup(slots, name, ext, from) == LookupFile(files, name, ext, from)
    ensures FirstEmpty(slots, from) == FirstEmptyFile(files, from)
    decreases |slots| - from
  {
    if from == |slots| {
    } else {
      assert Shows(files[from], slots[from], name, ext);
      PointwiseScans(slots, files, name, ext, from + 1);
    }
  }

  /** Scanning the bytes of the directory finds what scanning the ledger finds. */
  lemma ScansAgree(b: Bpb, d: Image, name: FileName, ext: Extension)
    requires Inv(b, d)
    ensures Lookup(Slots(b, d), name, ext, 0) == Find(LedgerOf(b, d), name, ext)
    ensures FirstEmpty(Slots(b, d), 0) == EmptySlot(LedgerOf(b, d))
  {
    forall i | 0 <= i < SlotCount(b) ensures Shows(Files(b, d)[i], Slots(b, d)[i], name, ext) {
      FileOfSlot(b, d, i, name, ext);
    }
    PointwiseScans(Slots(b, d), Files(b, d), name, ext, 0);
  }

  /** Releasing a chain leaves the pool of the ledger free. */
  lemma FreedIsPool(b: Bpb, d: Image, i: nat)
    requires Inv(b, d) && i < SlotCount(b) && !IsEmptySlot(Slots(b, d)[i])
    ensures var s := Slots(b, d)[i];
      var pool := Pool(FreeClusters(Fat(b, d)), SlotChain(Fat(b, d), s));
      FreeClusters(FreedFat(Fat(b, d), s)) == pool && |pool| == |FreeClusters(Fat(b, d))| + |SlotChain(Fat(b, d), s)|
  {
    var fat, s := Fat(b, d), Slots(b, d)[i];
    var free, freed := FreeClusters(fat), FreeClusters(FreedFat(fat, s));
    var pool := Pool(free, SlotChain(fat, s));
    FreeClustersAreFree(fat);
    FreeClustersAreFree(FreedFat(fat, s));
    PoolIs(free, SlotChain(fat, s));
    forall c: nat ensures c in freed <==> c in pool {
      FreedSet(b, d, i, c);
    }
    SameAscending(freed, pool);
    FreedKeeps(b, d, i);
  }

  // ----- One operation -----

  lemma RecordsKept(b: Bpb, d0: Image, d: Image, i: nat, r: Record)
    requires Inv(b, d0) && Inv(b, d) && i < SlotCount(b) && OthersKept(b, d0, d, i) && RecordOf(b, d, i) == r
    ensures LedgerOf(b, d).records == LedgerOf(b, d0).records[i := r]
  {
    forall j | 0 <= j < SlotCount(b) ensures RecordOf(b, d, j) == LedgerOf(b, d0).records[i := r][j] {
      assert j == i || SlotKept(b, d0, d, j);
    }
  }

  lemma RefinesCreate(b: Bpb, d0: Image, d: Image, i: nat, name: FileName, ext: Extension, data: seq<byte>)
    requires Inv(b, d0) && FirstEmpty(Slots(b, d0), 0) == Some(i)
    requires Created(b, d0, d, i, NewFile(name, ext, data), ClustersNeeded(b, |data|))
    requires Decode(Slots(b, d)[i]).fileSize == StoredSize(|data|)
    ensures Applied(LedgerOf(b, d), Ok) == ApplyCreate(b, LedgerOf(b, d0), name, ext, data)
  {
    ScansAgree(b, d0, name, ext);
    FileOfSlot(b, d, i, name, ext);
    assert Files(b, d)[i] == NewFile(name, ext, data);
    RecordsKept(b, d0, d, i, NewRecord(name, ext, data, LedgerOf(b, d0).free[..ClustersNeeded(b, |data|)]));
  }

  lemma RefinesFailedCreate(b: Bpb, d0: Image, d: Image, name: FileName, ext: Extension, data: seq<byte>)
    requires Inv(b, d0) && CreateOutcome(b, d0, |data|) == DiskFull && CreateFailed(b, d0, d)
    ensures Applied(LedgerOf(b, d), DiskFull) == ApplyCreate(b, LedgerOf(b, d0), name, ext, data)
  {
    ScansAgree(b, d0, name, ext);
    forall j | 0 <= j < SlotCount(b) ensures RecordOf(b, d, j) == RecordOf(b, d0, j) {
      assert SlotKept(b, d0, d, j);
    }
    assert LedgerOf(b, d).records == LedgerOf(b, d0).records;
  }

  lemma RefinesOverwrite(b: Bpb, d0: Image, d: Image, i: nat, name: FileName, ext: Extension, data: seq<byte>)
    requires Inv(b, d0) && Lookup(Slots(b, d0), name, ext, 0) == Some(i)
    requires Overwritten(b, d0, d, i, name, ext, data)
    ensures Applied(LedgerOf(b, d), Ok) == ApplyOverwrite(b, LedgerOf(b, d0), name, ext, data)
  {
    ScansAgree(b, d0, name, ext);
    FreedIsPool(b, d0, i);
    FileOfSlot(b, d, i, name, ext);
    var file := File(name, ext, data[..StoredSize(|data|)]);
    assert Files(b, d)[i] == file;
    RecordsKept(b, d0, d, i, Record(file, SlotChain(Fat(b, d), Slots(b, d)[i]), StoredSize(|data|)));
  }

  lemma RefinesFailedOverwrite(b: Bpb, d0: Image, d: Image, i: nat, name: FileName, ext: Extension, data: seq<byte>)
    requires Inv(b, d0) && Lookup(Slots(b, d0), name, ext, 0) == Some(i)
    requires OverwriteOutcome(b, d0, name, ext, |data|) == DiskFull && Damaged(b, d0, d, i, name, ext, data)
    ensures Applied(LedgerOf(b, d), DiskFull) == ApplyOverwrite(b, LedgerOf(b, d0), name, ext, data)
  {
    var s := Slots(b, d0)[i];
    ScansAgree(b, d0, name, ext);
    FreedIsPool(b, d0, i);
    ChainHead(Fat(b, d0), Decode(s).clusterLow);
    RecordsKept(b, d0, d, i, Record(Files(b, d)[i], SlotChain(Fat(b, d), s), Decode(s).fileSize));
  }

  /** What the ledger says about the drive being asked for missing clusters is what the operations require. */
  lemma AnsweredMeans(b: Bpb, d: Image, name: FileName, ext: Extension, data: seq<byte>)
    requires Inv(b, d)
    ensures Answered(b, |d|, LedgerOf(b, d), Create(name, ext, data)) <==>
      (FirstEmpty(Slots(b, d), 0).Some? ==> WriteStaysOnDisk(b, |d|, Fat(b, d), |data|))
    ensures Answered(b, |d|, LedgerOf(b, d), Overwrite(name, ext, data)) <==>
      match Lookup(Slots(b, d), name, ext, 0)
      case Some(i) => WriteStaysOnDisk(b, |d|, FreedFat(Fat(b, d), Slots(b, d)[i]), |data|)
      case None => true
  {
    ScansAgree(b, d, name, ext);
    match Lookup(Slots(b, d), name, ext, 0)
    case Some(i) => FreedIsPool(b, d, i);
    case None =>
  }

  // ----- Leaks -----

  /** Beside what was lost already, exactly the given clusters are lost. */
  ghost predicate LeaksMore(b: Bpb, d0: Image, d: Image, leaked: seq<nat>)
    requires Inv(b, d0) && Inv(b, d)
  {
    forall c: nat :: Leaked(b, d, c) <==> Leaked(b, d0, c) || c in leaked
  }

  lemma FreeIsCluster(b: Bpb, d: Image, fat: seq<u16>, c: nat)
    requires |fat| == ClusterCount(b) >= 2 && fat[0] != FREE && fat[1] != FREE && c in FreeClusters(fat)
    ensures IsCluster(b, c)
  {
    FreeClustersAreFree(fat);
  }

  lemma CreateLeaksExactly(b: Bpb, d0: Image, d: Image, i: nat, name: FileName, ext: Extension, data: seq<byte>)
    requires Inv(b, d0) && FirstEmpty(Slots(b, d0), 0) == Some(i)
    requires Created(b, d0, d, i, NewFile(name, ext, data), ClustersNeeded(b, |data|))
    ensures LeaksMore(b, d0, d, LeakedBy(b, LedgerOf(b, d0), Create(name, ext, data)))
  {
    var free, need := FreeClusters(Fat(b, d0)), ClustersNeeded(b, |data|);
    ScansAgree(b, d0, name, ext);
    forall c: nat
      ensures Leaked(b, d, c) <==> Leaked(b, d0, c) || (Reserved(name) && c in free[..need])
    {
      CreateLeaks(b, d0, d, i, NewFile(name, ext, data), need, c);
      if c in free[..need] {
        FreeIsCluster(b, d0, Fat(b, d0), c);
      }
    }
  }

  lemma FailedCreateLeaksExactly(b: Bpb, d0: Image, d: Image, name: FileName, ext: Extension, data: seq<byte>)
    requires Inv(b, d0) && CreateOutcome(b, d0, |data|) == DiskFull && CreateFailed(b, d0, d)
    ensures LeaksMore(b, d0, d, LeakedBy(b, LedgerOf(b, d0), Create(name, ext, data)))
  {
    ScansAgree(b, d0, name, ext);
    forall c: nat ensures Leaked(b, d, c) <==> Leaked(b, d0, c) || c in FreeClusters(Fat(b, d0)) {
      FailedCreateLeaks(b, d0, d, c);
      if c in FreeClusters(Fat(b, d0)) {
        FreeIsCluster(b, d0, Fat(b, d0), c);
      }
    }
  }

  lemma OverwriteLeaksExactly(b: Bpb, d0: Image, d: Image, i: nat, name: FileName, ext: Extension, data: seq<byte>)
    requires Inv(b, d0) && Lookup(Slots(b, d0), name, ext, 0) == Some(i)
    requires Overwritten(b, d0, d, i, name, ext, data)
    ensures LeaksMore(b, d0, d, LeakedBy(b, LedgerOf(b, d0), Overwrite(name, ext, data)))
  {
    ScansAgree(b, d0, name, ext);
    FreedIsPool(b, d0, i);
    forall c: nat ensures Leaked(b, d, c) <==> Leaked(b, d0, c) {
      OverwriteLeaks(b, d0, d, i, name, ext, data, c);
    }
  }

  lemma FailedOverwriteLeaksExactly(b: Bpb, d0: Image, d: Image, i: nat, name: FileName, ext: Extension, data: seq<byte>)
    requires Inv(b, d0) && Lookup(Slots(b, d0), name, ext, 0) == Some(i)
    requires OverwriteOutcome(b, d0, name, ext, |data|) == DiskFull && Damaged(b, d0, d, i, name, ext, data)
    ensures LeaksMore(b, d0, d, LeakedBy(b, LedgerOf(b, d0), Overwrite(name, ext, data)))
  {
    var fat, s := Fat(b, d0), Slots(b, d0)[i];
    var free := FreeClusters(FreedFat(fat, s));
    var lost := free[..IndexOf(free, Decode(s).clusterLow)];
    ScansAgree(b, d0, name, ext);
    FreedIsPool(b, d0, i);
    FreedKeeps(b, d0, i);
    ChainHead(fat, Decode(s).clusterLow);
    forall c: nat ensures Leaked(b, d, c) <==> Leaked(b, d0, c) || c in lost {
      FailedOverwriteLeaks(b, d0, d, i, name, ext, data, c);
      if c in lost {
        FreeIsCluster(b, d0, FreedFat(fat, s), c);
      }
    }
  }
}
