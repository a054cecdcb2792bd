/** Whole runs of the file system: what any sequence of operations returns and leaves on the drive. */
module Runs {
  import opened Basics
  import opened Bytes
  import opened Disk
  import opened Layout
  import opened FatTable
  import opened Chains
  import opened Directory
  import opened Volume
  import opened Storage
  import opened FileSystem
  import opened Format
  import opened Space
  import opened Ledger
  import opened Refinement

  // ----- Finding what was created -----

  lemma {:induction false} LookupFinds(files: seq<File>, name: FileName, ext: Extension, from: nat, i: nat)
    requires from <= i < |files| && forall j :: from <= j < i ==> files[j].File?
    ensures LookupFile(files, name, ext, from) == Some(i) <==>
              Named(files[i], name, ext) && forall j :: from <= j < i ==> !Named(files[j], name, ext)
    decreases i - from
  {
    if from == i {
    } else {
      LookupFinds(files, name, ext, from + 1, i);
    }
  }

  /**
   * A file just created is the one a lookup finds exactly when its name does not start with one of the
   * two reserved bytes and no earlier file has the same name. The source checks neither.
   */
  lemma CreatedIsFound(files: seq<File>, i: nat, name: FileName, ext: Extension, data: seq<byte>)
    requires FirstEmptyFile(files, 0) == Some(i)
    ensures LookupFile(files[i := NewFile(name, ext, data)], name, ext, 0) == Some(i) <==>
              !Reserved(name) && forall j :: 0 <= j < i ==> !Named(files[j], name, ext)
  {
    var files' := files[i := NewFile(name, ext, data)];
    assert forall j :: 0 <= j < i ==> files'[j] == files[j];
    LookupFinds(files', name, ext, 0, i);
  }

  lemma NoReservedNames(b: Bpb, d: Image, j: nat)
    requires Inv(b, d) && j < SlotCount(b) && Files(b, d)[j].File?
    ensures !Reserved(Files(b, d)[j].name)
  {
    assert Files(b, d)[j].name[0] == Slots(b, d)[j][0];
  }

  /** On no volume does a lookup find a file whose name starts with a reserved byte, not even one just created. */
  lemma ReservedNameIsLost(b: Bpb, d: Image, i: nat, name: FileName, ext: Extension, data: seq<byte>)
    requires Inv(b, d) && FirstEmptyFile(Files(b, d), 0) == Some(i) && Reserved(name)
    ensures LookupFile(Files(b, d), name, ext, 0) == None
    ensures LookupFile(Files(b, d)[i := NewFile(name, ext, data)], name, ext, 0) == None
  {
    var files := Files(b, d);
    forall j | 0 <= j < |files| && files[j].File? ensures !Reserved(files[j].name) {
      NoReservedNames(b, d, j);
    }
  }

  // ----- Reading back -----

  /** What putting `f` into slot `i` does to a lookup that finds another slot. */
  lemma {:induction false} LookupUpdate(files: seq<File>, i: nat, f: File, name: FileName, ext: Extension, from: nat, k: nat)
    requires i < |files| && from <= |files| && LookupFile(files, name, ext, from) == Some(k)
    requires k != i && !Named(f, name, ext)
    ensures LookupFile(files[i := f], name, ext, from) == if f.Unused? && from <= i < k then None else Some(k)
    decreases |files| - from
  {
    if from == k {
    } else {
      LookupUpdate(files, i, f, name, ext, from + 1, k);
    }
  }

  lemma {:induction false} NotFoundBefore(files: seq<File>, name: FileName, ext: Extension, from: nat, i: nat)
    requires from <= i <= |files| && LookupFile(files, name, ext, from) == None
    requires forall j :: from <= j < i ==> files[j].File?
    ensures forall j :: from <= j < i ==> !Named(files[j], name, ext)
    decreases i - from
  {
    if from == i {
    } else {
      NotFoundBefore(files, name, ext, from + 1, i);
    }
  }

  /** What was just stored is what is read, unless a file was created under a reserved name or the name of another. */
  lemma ReadsOwnWrite(b: Bpb, l: Ledger, op: Op)
    requires 1 <= b.sectorsPerCluster && Sound(l) && Apply(b, l, op).outcome == Ok
    requires op.Create? ==> !Reserved(op.name) && Find(l, op.name, op.ext) == None
    ensures Contents(Apply(b, l, op).ledger, op.name, op.ext) == Some(op.data[..StoredSize(|op.data|)])
  {
    var l', files := Apply(b, l, op).ledger, FilesOf(l);
    if op.Create? {
      var i := EmptySlot(l).value;
      NotFoundBefore(files, op.name, op.ext, 0, i);
      CreatedIsFound(files, i, op.name, op.ext, op.data);
      assert FilesOf(l') == files[i := NewFile(op.name, op.ext, op.data)];
    } else {
      var i := Find(l, op.name, op.ext).value;
      var f := File(op.name, op.ext, op.data[..StoredSize(|op.data|)]);
      assert FilesOf(l') == files[i := f];
      LookupSame(files, i, f, op.name, op.ext, 0);
    }
  }

  lemma {:induction false} LookupSame(files: seq<File>, i: nat, f: File, name: FileName, ext: Extension, from: nat)
    requires from <= |files| && LookupFile(files, name, ext, from) == Some(i) && Named(f, name, ext)
    ensures LookupFile(files[i := f], name, ext, from) == Some(i)
    decreases |files| - from
  {
    if from == i {
    } else {
      LookupSame(files, i, f, name, ext, from + 1);
    }
  }

  /** The operation creates an entry whose first byte is the mark at which every later scan stops, in slot `i`. */
  predicate Truncates(b: Bpb, l: Ledger, op: Op, i: nat)
    requires 1 <= b.sectorsPerCluster && Sound(l)
  {
    op.Create? && Apply(b, l, op).outcome == Ok && op.name[0] == UNUSED && EmptySlot(l) == Some(i)
  }

  /**
   * Whatever the outcome, a file of another name that could be read reads the same afterwards, except exactly when a
   * creation under a name that starts with 0x00 takes a slot in front of it.
   */
  lemma OthersStillRead(b: Bpb, l: Ledger, op: Op, name: FileName, ext: Extension)
    requires 1 <= b.sectorsPerCluster && Sound(l) && (name, ext) != (op.name, op.ext) && Find(l, name, ext).Some?
    ensures Contents(Apply(b, l, op).ledger, name, ext) == Contents(l, name, ext) <==>
              !exists i :: 0 <= i < Find(l, name, ext).value && Truncates(b, l, op, i)
  {
    var l', files, k := Apply(b, l, op).ledger, FilesOf(l), Find(l, name, ext).value;
    match if op.Create? then EmptySlot(l) else Find(l, op.name, op.ext)
    case None =>
    case Some(i) =>
      assert FilesOf(l') == files[i := l'.records[i].file];
      LookupUpdate(files, i, l'.records[i].file, name, ext, 0, k);
      assert Truncates(b, l, op, i) <==> l'.records[i].file.Unused? && Apply(b, l, op).outcome == Ok;
  }

  // ----- Reading a file by name -----

  /** What `FindFile` followed by `ReadFile` returns is the contents of the first file of that name. */
  method Fetch(fs: Fat16FileSystem, name: FileName, ext: Extension) returns (r: Option<seq<byte>>)
    requires Inv(fs.bpb, fs.drive.sectors)
    ensures r == Contents(LedgerOf(fs.bpb, fs.drive.sectors), name, ext)
  {
    ghost var b, d := fs.bpb, fs.drive.sectors;
    ScansAgree(b, d, name, ext);
    var entry := fs.FindFile(name, ext);
    if entry == None {
      return None;
    }
    ghost var i := Find(LedgerOf(b, d), name, ext).value;
    ChainHead(Fat(b, d), entry.value.clusterLow);
    ReadFollowsChain(b, d, SlotChain(Fat(b, d), Slots(b, d)[i]), entry.value.fileSize);
    assert FilesOf(LedgerOf(b, d))[i] == Files(b, d)[i];
    var data := fs.ReadFile(entry.value);
    r := Some(data);
  }

  // ----- One operation -----

  /** The clusters of a ledger: free ones and those of files. */
  function ChainTotal(records: seq<Record>): nat {
    if records == [] then 0 else |records[0].chain| + ChainTotal(records[1..])
  }

  function Clusters(l: Ledger): nat {
    |l.free| + ChainTotal(l.records)
  }

  lemma {:induction false} ChainTotalUpdate(records: seq<Record>, i: nat, r: Record)
    requires i < |records|
    ensures ChainTotal(records[i := r]) + |records[i].chain| == ChainTotal(records) + |r.chain|
  {
    if i == 0 {
      assert records[0 := r][1..] == records[1..];
    } else {
      assert records[i := r][1..] == records[1..][i - 1 := r];
      ChainTotalUpdate(records[1..], i - 1, r);
    }
  }

  lemma CreateConserves(b: Bpb, l: Ledger, name: FileName, ext: Extension, data: seq<byte>)
    requires 1 <= b.sectorsPerCluster && Sound(l)
    requires EmptySlot(l).Some? ==> l.records[EmptySlot(l).value].chain == []
    ensures Clusters(ApplyCreate(b, l, name, ext, data).ledger) + |LeakedBy(b, l, Create(name, ext, data))| == Clusters(l)
  {
    var need := ClustersNeeded(b, |data|);
    if EmptySlot(l).Some? && need <= |l.free| {
      ChainTotalUpdate(l.records, EmptySlot(l).value, NewRecord(name, ext, data, l.free[..need]));
    }
  }

  lemma OverwriteConserves(b: Bpb, l: Ledger, name: FileName, ext: Extension, data: seq<byte>)
    requires 1 <= b.sectorsPerCluster && Sound(l)
    requires Find(l, name, ext).Some? ==>
      var chain := l.records[Find(l, name, ext).value].chain; |Pool(l.free, chain)| == |l.free| + |chain|
    ensures Clusters(ApplyOverwrite(b, l, name, ext, data).ledger) + |LeakedBy(b, l, Overwrite(name, ext, data))| == Clusters(l)
  {
    if Find(l, name, ext).Some? {
      var i := Find(l, name, ext).value;
      ChainTotalUpdate(l.records, i, ApplyOverwrite(b, l, name, ext, data).ledger.records[i]);
    }
  }

  lemma LedgerAddsUp(b: Bpb, d: Image, name: FileName, ext: Extension)
    requires Inv(b, d)
    ensures var l := LedgerOf(b, d);
      && (EmptySlot(l).Some? ==> l.records[EmptySlot(l).value].chain == [])
      && (Find(l, name, ext).Some? ==>
            var chain := l.records[Find(l, name, ext).value].chain; |Pool(l.free, chain)| == |l.free| + |chain|)
  {
    ScansAgree(b, d, name, ext);
    if Find(LedgerOf(b, d), name, ext).Some? {
      FreedIsPool(b, d, Find(LedgerOf(b, d), name, ext).value);
    }
  }

  /** Nothing appears or vanishes: a cluster is free, part of a file, or leaked by this operation. */
  lemma ApplyConserves(b: Bpb, d: Image, op: Op)
    requires Inv(b, d)
    ensures var l := LedgerOf(b, d); Clusters(Apply(b, l, op).ledger) + |LeakedBy(b, l, op)| == Clusters(l)
  {
    LedgerAddsUp(b, d, op.name, op.ext);
    match op
    case Create(name, ext, data) => CreateConserves(b, LedgerOf(b, d), name, ext, data);
    case Overwrite(name, ext, data) => OverwriteConserves(b, LedgerOf(b, d), name, ext, data);
  }

  /** Some cluster is lost by an operation exactly when the ledger before it meets the guard. */
  lemma LeakIff(b: Bpb, d0: Image, d: Image, op: Op)
    requires Inv(b, d0) && Inv(b, d) && LeaksMore(b, d0, d, LeakedBy(b, LedgerOf(b, d0), op))
    ensures (exists c: nat :: Leaked(b, d, c) && !Leaked(b, d0, c)) <==> WillLeak(b, LedgerOf(b, d0), op)
  {
    var l := LedgerOf(b, d0);
    var lost := LeakedBy(b, l, op);
    FreeClustersAreFree(Fat(b, d0));
    LeaksExactlyWhen(b, l, op);
    if lost != [] {
      assert lost[0] in lost;
      LostWasInUse(b, d0, op, lost[0]);
      assert Leaked(b, d, lost[0]) && !Leaked(b, d0, lost[0]);
    }
  }

  lemma LostWasInUse(b: Bpb, d: Image, op: Op, c: nat)
    requires Inv(b, d) && c in LeakedBy(b, LedgerOf(b, d), op)
    ensures !Leaked(b, d, c)
  {
    var l := LedgerOf(b, d);
    if op.Create? {
      assert c in l.free;
    } else {
      ScansAgree(b, d, op.name, op.ext);
      var i := Find(l, op.name, op.ext).value;
      FreeClustersAreFree(Fat(b, d));
      PoolIs(l.free, l.records[i].chain);
      assert c in Pool(l.free, l.records[i].chain);
      assert c in l.free || OwnedBySlot(b, d, i, c);
    }
  }

  method PerformCreate(fs: Fat16FileSystem, name: FileName, ext: Extension, data: seq<byte>) returns (r: Outcome)
    requires Inv(fs.bpb, fs.drive.sectors)
    requires Answered(fs.bpb, |fs.drive.sectors|, LedgerOf(fs.bpb, fs.drive.sectors), Create(name, ext, data))
    modifies fs.drive
    ensures |fs.drive.sectors| == |old(fs.drive.sectors)| && Inv(fs.bpb, fs.drive.sectors)
    ensures Applied(LedgerOf(fs.bpb, fs.drive.sectors), r)
         == Apply(fs.bpb, LedgerOf(fs.bpb, old(fs.drive.sectors)), Create(name, ext, data))
    ensures LeaksMore(fs.bpb, old(fs.drive.sectors), fs.drive.sectors,
                      LeakedBy(fs.bpb, LedgerOf(fs.bpb, old(fs.drive.sectors)), Create(name, ext, data)))
  {
    ghost var b, d0 := fs.bpb, fs.drive.sectors;
    AnsweredMeans(b, d0, name, ext, data);
    ScansAgree(b, d0, name, ext);
    r := fs.WriteNewFile(name, ext, data);
    ghost var d := fs.drive.sectors;
    if r == Ok {
      ghost var i := FirstEmpty(Slots(b, d0), 0).value;
      FreeClustersAreFree(Fat(b, d0));
      assert FreeClusters(Fat(b, d0))[0] in FreeClusters(Fat(b, d0));
      NewSlotDecodes(Slots(b, d)[i], name, ext, FreeClusters(Fat(b, d0))[0], |data|);
      RefinesCreate(b, d0, d, i, name, ext, data);
      CreateLeaksExactly(b, d0, d, i, name, ext, data);
    } else if r == DiskFull {
      RefinesFailedCreate(b, d0, d, name, ext, data);
      FailedCreateLeaksExactly(b, d0, d, name, ext, data);
    }
  }

  method PerformOverwrite(fs: Fat16FileSystem, name: FileName, ext: Extension, data: seq<byte>) returns (r: Outcome)
    requires Inv(fs.bpb, fs.drive.sectors)
    requires Answered(fs.bpb, |fs.drive.sectors|, LedgerOf(fs.bpb, fs.drive.sectors), Overwrite(name, ext, data))
    modifies fs.drive
    ensures |fs.drive.sectors| == |old(fs.drive.sectors)| && Inv(fs.bpb, fs.drive.sectors)
    ensures Applied(LedgerOf(fs.bpb, fs.drive.sectors), r)
         == Apply(fs.bpb, LedgerOf(fs.bpb, old(fs.drive.sectors)), Overwrite(name, ext, data))
    ensures LeaksMore(fs.bpb, old(fs.drive.sectors), fs.drive.sectors,
                      LeakedBy(fs.bpb, LedgerOf(fs.bpb, old(fs.drive.sectors)), Overwrite(name, ext, data)))
  {
    ghost var b, d0 := fs.bpb, fs.drive.sectors;
    AnsweredMeans(b, d0, name, ext, data);
    ScansAgree(b, d0, name, ext);
    ghost var slot;
    r, slot := fs.OverwriteFile(name, ext, data);
    ghost var d := fs.drive.sectors;
    if r == Ok {
      RefinesOverwrite(b, d0, d, slot, name, ext, data);
      OverwriteLeaksExactly(b, d0, d, slot, name, ext, data);
    } else if r == DiskFull {
      RefinesFailedOverwrite(b, d0, d, slot, name, ext, data);
      FailedOverwriteLeaksExactly(b, d0, d, slot, name, ext, data);
    }
  }

  /** An operation on the drive is that operation on the ledger, outcome included. */
  method Perform(fs: Fat16FileSystem, op: Op) returns (r: Outcome)
    requires Inv(fs.bpb, fs.drive.sectors)
    requires Answered(fs.bpb, |fs.drive.sectors|, LedgerOf(fs.bpb, fs.drive.sectors), op)
    modifies fs.drive
    ensures |fs.drive.sectors| == |old(fs.drive.sectors)| && Inv(fs.bpb, fs.drive.sectors)
    ensures Applied(LedgerOf(fs.bpb, fs.drive.sectors), r) == Apply(fs.bpb, LedgerOf(fs.bpb, old(fs.drive.sectors)), op)
    ensures LeaksMore(fs.bpb, old(fs.drive.sectors), fs.drive.sectors,
                      LeakedBy(fs.bpb, LedgerOf(fs.bpb, old(fs.drive.sectors)), op))
    ensures (exists c: nat :: Leaked(fs.bpb, fs.drive.sectors, c) && !Leaked(fs.bpb, old(fs.drive.sectors), c)) <==>
              WillLeak(fs.bpb, LedgerOf(fs.bpb, old(fs.drive.sectors)), op)
  {
    ghost var d0 := fs.drive.sectors;
    match op {
      case Create(name, ext, data) => r := PerformCreate(fs, name, ext, data);
      case Overwrite(name, ext, data) => r := PerformOverwrite(fs, name, ext, data);
    }
    LeakIff(fs.bpb, d0, fs.drive.sectors, op);
  }

  // ----- Runs -----

  /** The outcome of operation `k`, decided by the ledger before it. */
  function OutcomeAt(b: Bpb, l: Ledger, ops: seq<Op>, k: nat): Outcome
    requires 1 <= b.sectorsPerCluster && Sound(l) && k < |ops|
  {
    Apply(b, ApplyAll(b, l, ops[..k]), ops[k]).outcome
  }

  ghost predicate Outcomes(b: Bpb, l: Ledger, ops: seq<Op>, rs: seq<Outcome>)
    requires 1 <= b.sectorsPerCluster && Sound(l) && |rs| <= |ops|
  {
    forall k :: 0 <= k < |rs| ==> rs[k] == OutcomeAt(b, l, ops, k)
  }

  lemma OneMore(b: Bpb, l: Ledger, ops: seq<Op>, n: nat)
    requires 1 <= b.sectorsPerCluster && Sound(l) && n < |ops|
    ensures ApplyAll(b, l, ops[..n + 1]) == Apply(b, ApplyAll(b, l, ops[..n]), ops[n]).ledger
    ensures LeakedByAll(b, l, ops[..n + 1]) == LeakedByAll(b, l, ops[..n]) + LeakedBy(b, ApplyAll(b, l, ops[..n]), ops[n])
  {
    assert ops[..n + 1][..n] == ops[..n];
  }

  lemma OutcomesOneMore(b: Bpb, l: Ledger, ops: seq<Op>, rs: seq<Outcome>, r: Outcome)
    requires 1 <= b.sectorsPerCluster && Sound(l) && |rs| < |ops| && Outcomes(b, l, ops, rs)
    requires r == OutcomeAt(b, l, ops, |rs|)
    ensures Outcomes(b, l, ops, rs + [r])
  {
    forall k | 0 <= k < |rs| + 1 ensures (rs + [r])[k] == OutcomeAt(b, l, ops, k) {
      assert k == |rs| || rs[k] == OutcomeAt(b, l, ops, k);
    }
  }

  lemma LeaksJoin(b: Bpb, d0: Image, d1: Image, d: Image, xs: seq<nat>, ys: seq<nat>)
    requires Inv(b, d0) && Inv(b, d1) && Inv(b, d) && LeaksMore(b, d0, d1, xs) && LeaksMore(b, d1, d, ys)
    ensures LeaksMore(b, d0, d, xs + ys)
  {
    forall c: nat ensures Leaked(b, d, c) <==> Leaked(b, d0, c) || c in xs + ys {
      assert Leaked(b, d, c) <==> Leaked(b, d1, c) || c in ys;
    }
  }

  /**
   * `d` is what the ledger of `d0` becomes under the operations; the clusters leaked on the way, and no others, are
   * lost, and with them the clusters add up.
   */
  ghost predicate Ran(b: Bpb, d0: Image, d: Image, ops: seq<Op>)
    requires Inv(b, d0)
  {
    && |d| == |d0| && Inv(b, d)
    && LedgerOf(b, d) == ApplyAll(b, LedgerOf(b, d0), ops)
    && LeaksMore(b, d0, d, LeakedByAll(b, LedgerOf(b, d0), ops))
    && Clusters(LedgerOf(b, d)) + |LeakedByAll(b, LedgerOf(b, d0), ops)| == Clusters(LedgerOf(b, d0))
  }

  lemma RanOneMore(b: Bpb, d0: Image, d: Image, d': Image, ops: seq<Op>, n: nat)
    requires Inv(b, d0) && n < |ops| && Ran(b, d0, d, ops[..n]) && |d'| == |d| && Inv(b, d')
    requires LedgerOf(b, d') == Apply(b, LedgerOf(b, d), ops[n]).ledger
    requires LeaksMore(b, d, d', LeakedBy(b, LedgerOf(b, d), ops[n]))
    ensures Ran(b, d0, d', ops[..n + 1])
  {
    var l := LedgerOf(b, d0);
    OneMore(b, l, ops, n);
    ApplyConserves(b, d, ops[n]);
    LeaksJoin(b, d0, d, d', LeakedByAll(b, l, ops[..n]), LeakedBy(b, LedgerOf(b, d), ops[n]));
  }

  /** Performs one more operation of a run. */
  method RunOne(fs: Fat16FileSystem, ops: seq<Op>, rs: seq<Outcome>, ghost d0: Image) returns (rs': seq<Outcome>)
    requires Inv(fs.bpb, d0) && |rs| < |ops| && Outcomes(fs.bpb, LedgerOf(fs.bpb, d0), ops, rs)
    requires Ran(fs.bpb, d0, fs.drive.sectors, ops[..|rs|])
    requires Answered(fs.bpb, |fs.drive.sectors|, LedgerOf(fs.bpb, fs.drive.sectors), ops[|rs|])
    modifies fs.drive
    ensures |rs'| == |rs| + 1 && Outcomes(fs.bpb, LedgerOf(fs.bpb, d0), ops, rs')
    ensures Ran(fs.bpb, d0, fs.drive.sectors, ops[..|rs'|])
  {
    ghost var d := fs.drive.sectors;
    var r := Perform(fs, ops[|rs|]);
    RanOneMore(fs.bpb, d0, d, fs.drive.sectors, ops, |rs|);
    OutcomesOneMore(fs.bpb, LedgerOf(fs.bpb, d0), ops, rs, r);
    rs' := rs + [r];
  }

  /**
   * Performs operations one after the other, successful or not, and stops only where the drive would be asked for a
   * cluster it does not have. The ledger predicts every outcome, the final volume, and every cluster lost on the way.
   */
  method Run(fs: Fat16FileSystem, ops: seq<Op>) returns (rs: seq<Outcome>)
    requires Inv(fs.bpb, fs.drive.sectors)
    modifies fs.drive
    ensures |rs| <= |ops| && Outcomes(fs.bpb, LedgerOf(fs.bpb, old(fs.drive.sectors)), ops, rs)
    ensures Ran(fs.bpb, old(fs.drive.sectors), fs.drive.sectors, ops[..|rs|])
    ensures |rs| < |ops| ==> !Answered(fs.bpb, |fs.drive.sectors|, LedgerOf(fs.bpb, fs.drive.sectors), ops[|rs|])
  {
    ghost var d0 := fs.drive.sectors;
    rs := [];
    while |rs| < |ops| && Answered(fs.bpb, |fs.drive.sectors|, LedgerOf(fs.bpb, fs.drive.sectors), ops[|rs|])
      invariant |rs| <= |ops| && Outcomes(fs.bpb, LedgerOf(fs.bpb, d0), ops, rs)
      invariant Ran(fs.bpb, d0, fs.drive.sectors, ops[..|rs|])
      decreases |ops| - |rs|
    {
      rs := RunOne(fs, ops, rs, d0);
    }
  }

  /** When the drive holds every cluster of the table, nothing is ever left unanswered. */
  lemma LargeDriveAnswers(b: Bpb, d: Image, op: Op)
    requires Inv(b, d) && forall c: nat :: IsCluster(b, c) ==> OnDisk(b, |d|, c)
    ensures Answered(b, |d|, LedgerOf(b, d), op)
  {
    AnsweredMeans(b, d, op.name, op.ext, op.data);
    match op
    case Create(_, _, _) => FreeListOnDisk(b, d, Fat(b, d));
    case Overwrite(name, ext, _) =>
      match Lookup(Slots(b, d), name, ext, 0) {
        case Some(i) =>
          FreedKeeps(b, d, i);
          FreeListOnDisk(b, d, FreedFat(Fat(b, d), Slots(b, d)[i]));
        case None =>
      }
  }

  lemma FreeListOnDisk(b: Bpb, d: Image, fat: seq<u16>)
    requires |fat| == ClusterCount(b) && |fat| >= 2 && fat[0] != FREE && fat[1] != FREE
    requires forall c: nat :: IsCluster(b, c) ==> OnDisk(b, |d|, c)
    ensures AllOnDisk(b, |d|, FreeClusters(fat))
  {
    var free := FreeClusters(fat);
    forall k | 0 <= k < |free| ensures OnDisk(b, |d|, free[k]) {
      assert free[k] in free;
      FreeIsCluster(b, d, fat, free[k]);
    }
  }

  // ----- From formatting on -----

  /** The ledger of a freshly formatted volume. */
  function FreshLedger(): (l: Ledger)
    ensures Sound(l)
  {
    Ledger(seq(512, _ => Record(Unused, [], 0)), seq(16382, i => i + 2))
  }

  lemma FreshRecord(d: Image, i: nat)
    requires FreshVolume(d) && i < 512
    ensures Inv(FormattedBpb(), d) && RecordOf(FormattedBpb(), d, i) == Record(Unused, [], 0)
  {
    FreshVolumeIsEmpty(d);
    assert Files(FormattedBpb(), d)[i] == Unused;
  }

  lemma FreshFreeList(d: Image)
    requires FreshVolume(d)
    ensures Inv(FormattedBpb(), d) && FreeClusters(Fat(FormattedBpb(), d)) == FreshLedger().free
  {
    FreshVolumeIsEmpty(d);
  }

  lemma FreshVolumeLedger(d: Image)
    requires FreshVolume(d)
    ensures Inv(FormattedBpb(), d) && LedgerOf(FormattedBpb(), d) == FreshLedger()
  {
    FreshFreeList(d);
    var records := LedgerOf(FormattedBpb(), d).records;
    forall i | 0 <= i < 512 ensures records[i] == Record(Unused, [], 0) {
      FreshRecord(d, i);
    }
    assert records == FreshLedger().records;
  }

  lemma FreshVolumeHasNoLeaks(d: Image, c: nat)
    requires FreshVolume(d)
    ensures Inv(FormattedBpb(), d) && !Leaked(FormattedBpb(), d, c)
  {
    FreshVolumeIsEmpty(d);
    var free := FreeClusters(Fat(FormattedBpb(), d));
    if IsCluster(FormattedBpb(), c) {
      assert free[c - 2] == c;
    }
  }

  /**
   * Format, mount, run any operations, then read any name back. Every outcome, what is read, and every cluster that is lost
   * are what the ledger says, starting from 512 unused slots and clusters 2 to 16383 free. A drive of 65689 sectors
   * answers every operation.
   */
  method Session(drive: AtaDrive, ops: seq<Op>, name: FileName, ext: Extension)
    returns (rs: seq<Outcome>, r: Option<seq<byte>>)
    requires 161 <= |drive.sectors|
    modifies drive
    ensures |drive.sectors| == |old(drive.sectors)| && Inv(FormattedBpb(), drive.sectors) && |rs| <= |ops|
    ensures Outcomes(FormattedBpb(), FreshLedger(), ops, rs)
    ensures var l := ApplyAll(FormattedBpb(), FreshLedger(), ops[..|rs|]);
      && LedgerOf(FormattedBpb(), drive.sectors) == l && r == Contents(l, name, ext)
      && (|rs| < |ops| ==> |drive.sectors| < 65689 && !Answered(FormattedBpb(), |drive.sectors|, l, ops[|rs|]))
    ensures var lost := LeakedByAll(FormattedBpb(), FreshLedger(), ops[..|rs|]);
      && (forall c: nat :: Leaked(FormattedBpb(), drive.sectors, c) <==> c in lost)
      && Clusters(LedgerOf(FormattedBpb(), drive.sectors)) + |lost| == 16382
  {
    FormatDrive(drive);
    ghost var d0 := drive.sectors;
    FreshVolumeLedger(d0);
    FreshClusters();
    forall c: nat ensures !Leaked(FormattedBpb(), d0, c) {
      FreshVolumeHasNoLeaks(d0, c);
    }
    var mounted := Mount(drive);
    var fs := new Fat16FileSystem(mounted.value, drive);
    rs := Run(fs, ops);
    ghost var d := drive.sectors;
    if |d| >= 65689 && |rs| < |ops| {
      forall c: nat | IsCluster(fs.bpb, c) ensures OnDisk(fs.bpb, |d|, c) {
        ClustersOnLargeDrive(c, |d|);
      }
      LargeDriveAnswers(fs.bpb, d, ops[|rs|]);
    }
    r := Fetch(fs, name, ext);
  }

  lemma {:induction false} NoChains(records: seq<Record>)
    requires forall i :: 0 <= i < |records| ==> records[i].chain == []
    ensures ChainTotal(records) == 0
  {
    if records == [] {
    } else {
      NoChains(records[1..]);
    }
  }

  lemma FreshClusters()
    ensures Clusters(FreshLedger()) == 16382
  {
    var records := FreshLedger().records;
    assert forall i :: 0 <= i < |records| ==> records[i].chain == [];
    NoChains(records);
  }

  // ----- On a formatted volume -----

  /** The whole capacity of a formatted volume in bytes. */
  const CAPACITY_IN_BYTES: nat := 16382 * 2048

  /**
   * Creating one file that does not fit, on an empty volume, loses every cluster of it; no operation succeeds on
   * that volume ever again.
   */
  lemma OversizedFileBricks(name: FileName, ext: Extension, data: seq<byte>, ops: seq<Op>)
    requires |data| > CAPACITY_IN_BYTES
    ensures var b, op := FormattedBpb(), Create(name, ext, data);
      var l := Apply(b, FreshLedger(), op).ledger;
      && Apply(b, FreshLedger(), op).outcome == DiskFull && LeakedBy(b, FreshLedger(), op) == FreshLedger().free
      && forall k :: 0 <= k < |ops| ==> OutcomeAt(b, l, ops, k) != Ok
  {
    var b, op := FormattedBpb(), Create(name, ext, data);
    ClustersNeededIsLeast(b, |data|, 16382);
    assert FilesOf(FreshLedger())[0].Unused?;
    var l := Apply(b, FreshLedger(), op).ledger;
    assert Bricked(l);
    forall k | 0 <= k < |ops| ensures OutcomeAt(b, l, ops, k) != Ok {
      BrickedForever(b, l, ops[..k]);
      BrickedStays(b, l, ops[k]);
    }
  }

  /** A file of one byte whose name starts with 0xE5 is created successfully; it is not found, and its cluster is lost. */
  lemma ReservedNameLeaks(ext: Extension)
    ensures exists name: FileName ::
      var b, op := FormattedBpb(), Create(name, ext, [1]);
      var l := Apply(b, FreshLedger(), op).ledger;
      && Apply(b, FreshLedger(), op).outcome == Ok && Contents(l, name, ext) == None
      && LeakedBy(b, FreshLedger(), op) == [2]
  {
    var name: FileName := [0xE5, 0xAD, 0x97, 0x20, 0x20, 0x20, 0x20, 0x20];
    var b, op, l0 := FormattedBpb(), Create(name, ext, [1]), FreshLedger();
    assert FilesOf(l0)[0].Unused? && EmptySlot(l0) == Some(0);
    var l := Apply(b, l0, op).ledger;
    assert l0.free[..1] == [2];
    assert FilesOf(l)[0].Deleted? && forall j :: 0 <= j < 512 ==> !Named(FilesOf(l)[j], name, ext);
    assert Contents(l, name, ext) == None;
  }

  /** Two clusters that link to each other: on a formatted drive every read of any length that starts there still ends. */
  lemma {:induction false} CyclicFileEnds(d: Image, remaining: nat)
    requires FreshVolume(d) && 169 <= |d|
    ensures var b := FormattedBpb();
      Readable(b, WithFatEntry(b, WithFatEntry(b, d, 2, 3), 3, 2), 2, remaining)
  {
    var b := FormattedBpb();
    FreshFatEntries(d);
    SetFatKeepsRest(b, d, 2, 3);
    SetFatKeepsRest(b, WithFatEntry(b, d, 2, 3), 3, 2);
    AllocatedIsReadable(b, WithFatEntry(b, WithFatEntry(b, d, 2, 3), 3, 2), 2, remaining);
  }
}
