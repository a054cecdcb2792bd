/**
 * The file system without bytes: for each directory slot the file, its chain and its recorded size, and the list
 * of free clusters. Every operation is a function of the ledger, outcome included.
 */
module Ledger {
  import opened Basics
  import opened Bytes
  import opened Layout
  import opened FatTable
  import opened Directory
  import opened Volume
  import opened Storage

  /** One slot; a slot without a file has no chain. */
  datatype Record = Record(file: File, chain: seq<nat>, size: nat)

  datatype Ledger = Ledger(records: seq<Record>, free: seq<nat>)

  datatype Op = Create(name: FileName, ext: Extension, data: seq<byte>)
              | Overwrite(name: FileName, ext: Extension, data: seq<byte>)

  /** Every file has a first cluster. */
  predicate Sound(l: Ledger) {
    forall i :: 0 <= i < |l.records| && l.records[i].file.File? ==> l.records[i].chain != []
  }

  // ----- The scans, seen on files instead of bytes -----

  function FilesOf(l: Ledger): (files: seq<File>)
    ensures |files| == |l.records|
  {
    seq(|l.records|, i requires 0 <= i < |l.records| => l.records[i].file)
  }

  predicate Named(f: File, name: FileName, ext: Extension) {
    f.File? && f.name == name && f.ext == ext
  }

  function FirstEmptyFile(files: seq<File>, from: nat): (r: Option<nat>)
    requires from <= |files|
    ensures match r
      case Some(i) => from <= i < |files| && !files[i].File? && forall j :: from <= j < i ==> files[j].File?
      case None => forall j :: from <= j < |files| ==> files[j].File?
    decreases |files| - from
  {
    if from == |files| then None
    else if !files[from].File? then Some(from)
    else FirstEmptyFile(files, from + 1)
  }

  function LookupFile(files: seq<File>, name: FileName, ext: Extension, from: nat): (r: Option<nat>)
    requires from <= |files|
    ensures r.Some? ==> from <= r.value < |files| && Named(files[r.value], name, ext)
    decreases |files| - from
  {
    if from == |files| || files[from].Unused? then None
    else if Named(files[from], name, ext) then Some(from)
    else LookupFile(files, name, ext, from + 1)
  }

  function EmptySlot(l: Ledger): (r: Option<nat>)
    ensures r.Some? ==> r.value < |l.records| && !l.records[r.value].file.File?
  {
    FirstEmptyFile(FilesOf(l), 0)
  }

  function Find(l: Ledger, name: FileName, ext: Extension): (r: Option<nat>)
    ensures r.Some? ==> r.value < |l.records| && Named(l.records[r.value].file, name, ext)
  {
    LookupFile(FilesOf(l), name, ext, 0)
  }

  /** What reading by name yields. */
  function Contents(l: Ledger, name: FileName, ext: Extension): Option<seq<byte>> {
    match Find(l, name, ext)
    case Some(i) => Some(l.records[i].file.data)
    case None => None
  }

  // ----- The clusters an overwrite may use -----

  function Insert(s: seq<nat>, c: nat): seq<nat> {
    if s == [] || c < s[0] then [c] + s
    else if c == s[0] then s
    else [s[0]] + Insert(s[1..], c)
  }

  /** The free clusters and those of a chain, in ascending order. */
  function Pool(free: seq<nat>, chain: seq<nat>): seq<nat> {
    if chain == [] then free else Insert(Pool(free, chain[1..]), chain[0])
  }

  lemma {:induction false} InsertHas(s: seq<nat>, c: nat, x: nat)
    ensures x in Insert(s, c) <==> x == c || x in s
  {
    if s == [] || c <= s[0] {
    } else {
      InsertHas(s[1..], c, x);
      assert s == [s[0]] + s[1..];
    }
  }

  lemma {:induction false} InsertAscends(s: seq<nat>, c: nat)
    requires Ascending(s)
    ensures Ascending(Insert(s, c))
  {
    if s == [] || c <= s[0] {
    } else {
      var rest := Insert(s[1..], c);
      InsertAscends(s[1..], c);
      forall k | 0 <= k < |rest| ensures s[0] < rest[k] {
        InsertHas(s[1..], c, rest[k]);
      }
      assert Insert(s, c) == [s[0]] + rest;
    }
  }

  lemma {:induction false} PoolIs(free: seq<nat>, chain: seq<nat>)
    requires Ascending(free)
    ensures Ascending(Pool(free, chain)) && forall x :: x in Pool(free, chain) <==> x in free || x in chain
  {
    if chain == [] {
    } else {
      var rest := Pool(free, chain[1..]);
      PoolIs(free, chain[1..]);
      InsertAscends(rest, chain[0]);
      forall x ensures x in Pool(free, chain) <==> x in free || x in chain {
        InsertHas(rest, chain[0], x);
        assert chain == [chain[0]] + chain[1..];
      }
    }
  }

  lemma {:induction false} ChainInPool(free: seq<nat>, chain: seq<nat>, x: nat)
    requires x in chain
    ensures x in Pool(free, chain)
  {
    InsertHas(Pool(free, chain[1..]), chain[0], x);
    if x == chain[0] {
    } else {
      assert x in chain[1..];
      ChainInPool(free, chain[1..], x);
    }
  }

  /** Ascending lists of the same numbers are equal. */
  lemma {:induction false} SameAscending(xs: seq<nat>, ys: seq<nat>)
    requires Ascending(xs) && Ascending(ys) && forall x :: x in xs <==> x in ys
    ensures xs == ys
  {
    if xs == [] {
      assert forall k :: 0 <= k < |ys| ==> ys[k] in xs;
    } else {
      assert xs[0] in xs;
      assert ys[0] in ys;
      assert xs[0] == ys[0];
      forall x ensures x in xs[1..] <==> x in ys[1..] {
        TailElements(xs, x);
        TailElements(ys, x);
      }
      SameAscending(xs[1..], ys[1..]);
      assert xs == [xs[0]] + xs[1..] && ys == [ys[0]] + ys[1..];
    }
  }

  lemma TailElements(s: seq<nat>, x: nat)
    requires s != [] && Ascending(s)
    ensures x in s[1..] <==> x in s && x != s[0]
  {
    assert s == [s[0]] + s[1..];
  }

  // ----- The operations -----

  datatype Applied = Applied(ledger: Ledger, outcome: Outcome)

  predicate Reserved(name: FileName) {
    name[0] == UNUSED || name[0] == DELETED
  }

  /** The record of a file just stored on `chain`: some names make it count as no file. */
  function NewRecord(name: FileName, ext: Extension, data: seq<byte>, chain: seq<nat>): Record {
    if Reserved(name) then Record(NewFile(name, ext, data), [], 0)
    else Record(NewFile(name, ext, data), chain, StoredSize(|data|))
  }

  /** A new file takes the first empty slot and the smallest free clusters; a failed attempt uses them all up. */
  function ApplyCreate(b: Bpb, l: Ledger, name: FileName, ext: Extension, data: seq<byte>): (a: Applied)
    requires 1 <= b.sectorsPerCluster && Sound(l)
    ensures Sound(a.ledger) && |a.ledger.records| == |l.records|
  {
    var need := ClustersNeeded(b, |data|);
    match EmptySlot(l)
    case None => Applied(l, RootDirectoryFull)
    case Some(i) =>
      if |l.free| < need then Applied(l.(free := []), DiskFull)
      else Applied(Ledger(l.records[i := NewRecord(name, ext, data, l.free[..need])], l.free[need..]), Ok)
  }

  /**
   * An overwrite takes the smallest clusters of the free list and the old chain together. When these do not suffice, the
   * slot is left with those from the old first cluster on, and nothing is free.
   */
  function ApplyOverwrite(b: Bpb, l: Ledger, name: FileName, ext: Extension, data: seq<byte>): (a: Applied)
    requires 1 <= b.sectorsPerCluster && Sound(l)
    ensures Sound(a.ledger) && |a.ledger.records| == |l.records|
  {
    match Find(l, name, ext)
    case None => Applied(l, FileNotFound)
    case Some(i) =>
      var Record(_, chain, size) := l.records[i];
      var pool, need := Pool(l.free, chain), ClustersNeeded(b, |data|);
      if need <= |pool| then
        var stored := Record(File(name, ext, data[..StoredSize(|data|)]), pool[..need], StoredSize(|data|));
        Applied(Ledger(l.records[i := stored], pool[need..]), Ok)
      else
        ChainInPool(l.free, chain, chain[0]);
        ClustersNeededIsLeast(b, |data|, |pool|);
        var start := IndexOf(pool, chain[0]);
        var left := Record(File(name, ext, Leftover(b, pool, chain[0], size, data)), pool[start..], size);
        Applied(Ledger(l.records[i := left], []), DiskFull)
  }

  function Apply(b: Bpb, l: Ledger, op: Op): (a: Applied)
    requires 1 <= b.sectorsPerCluster && Sound(l)
    ensures Sound(a.ledger) && |a.ledger.records| == |l.records|
  {
    match op
    case Create(name, ext, data) => ApplyCreate(b, l, name, ext, data)
    case Overwrite(name, ext, data) => ApplyOverwrite(b, l, name, ext, data)
  }

  function ApplyAll(b: Bpb, l: Ledger, ops: seq<Op>): (l': Ledger)
    requires 1 <= b.sectorsPerCluster && Sound(l)
    ensures Sound(l') && |l'.records| == |l.records|
  {
    if ops == [] then l else Apply(b, ApplyAll(b, l, ops[..|ops| - 1]), ops[|ops| - 1]).ledger
  }

  /** The operation only needs clusters that a drive of that size has. Otherwise the drive never answers. */
  predicate Answered(b: Bpb, size: nat, l: Ledger, op: Op)
    requires 1 <= b.sectorsPerCluster
  {
    match op
    case Create(_, _, data) => EmptySlot(l).Some? ==> FirstOnDisk(b, size, l.free, ClustersNeeded(b, |data|))
    case Overwrite(name, ext, data) =>
      match Find(l, name, ext)
      case Some(i) => FirstOnDisk(b, size, Pool(l.free, l.records[i].chain), ClustersNeeded(b, |data|))
      case None => true
  }

  predicate FirstOnDisk(b: Bpb, size: nat, free: seq<nat>, need: nat) {
    forall k :: 0 <= k < |free| && k < need ==> OnDisk(b, size, free[k])
  }

  // ----- What leaks -----

  /** The clusters that an operation takes from the free list or from a file without giving them to a file. */
  function LeakedBy(b: Bpb, l: Ledger, op: Op): seq<nat>
    requires 1 <= b.sectorsPerCluster && Sound(l)
  {
    var need := ClustersNeeded(b, |op.data|);
    match op
    case Create(name, ext, data) =>
      if EmptySlot(l) == None then []
      else if |l.free| < need then l.free
      else if Reserved(name) then l.free[..need]
      else []
    case Overwrite(name, ext, data) =>
      match Find(l, name, ext)
      case None => []
      case Some(i) =>
        var chain := l.records[i].chain;
        ChainInPool(l.free, chain, chain[0]);
        var pool := Pool(l.free, chain);
        if need <= |pool| then [] else pool[..IndexOf(pool, chain[0])]
  }

  /** The guard under which an operation leaks: it can be checked before the call. */
  ghost predicate WillLeak(b: Bpb, l: Ledger, op: Op)
    requires 1 <= b.sectorsPerCluster && Sound(l)
  {
    var need := ClustersNeeded(b, |op.data|);
    match op
    case Create(name, ext, data) =>
      EmptySlot(l).Some? && if |l.free| < need then l.free != [] else Reserved(name)
    case Overwrite(name, ext, data) =>
      match Find(l, name, ext)
      case None => false
      case Some(i) =>
        var chain := l.records[i].chain;
        |Pool(l.free, chain)| < need && exists c :: (c in l.free || c in chain) && c < chain[0]
  }

  lemma LeaksExactlyWhen(b: Bpb, l: Ledger, op: Op)
    requires 1 <= b.sectorsPerCluster && Sound(l) && Ascending(l.free)
    ensures LeakedBy(b, l, op) != [] <==> WillLeak(b, l, op)
  {
    if op.Overwrite? && Find(l, op.name, op.ext).Some? {
      var chain := l.records[Find(l, op.name, op.ext).value].chain;
      var pool := Pool(l.free, chain);
      PoolIs(l.free, chain);
      ChainInPool(l.free, chain, chain[0]);
      var p := IndexOf(pool, chain[0]);
      if p > 0 {
        assert pool[0] in pool && pool[0] < chain[0];
      }
      if c :| (c in l.free || c in chain) && c < chain[0] {
        var k :| 0 <= k < |pool| && pool[k] == c;
      }
    }
  }

  function LeakedByAll(b: Bpb, l: Ledger, ops: seq<Op>): seq<nat>
    requires 1 <= b.sectorsPerCluster && Sound(l)
  {
    if ops == [] then []
    else
      var n := |ops| - 1;
      LeakedByAll(b, l, ops[..n]) + LeakedBy(b, ApplyAll(b, l, ops[..n]), ops[n])
  }

  /** Nothing is free and no file is stored. */
  predicate Bricked(l: Ledger) {
    l.free == [] && forall i :: 0 <= i < |l.records| ==> l.records[i].file.Unused?
  }

  lemma BrickedStays(b: Bpb, l: Ledger, op: Op)
    requires 1 <= b.sectorsPerCluster && Bricked(l)
    ensures Apply(b, l, op).ledger == l && Apply(b, l, op).outcome != Ok
  {
    assert FilesOf(l) == [] || FilesOf(l)[0].Unused?;
  }

  /** Such a volume stays that way: every creation fails, and there is nothing to overwrite. */
  lemma {:induction false} BrickedForever(b: Bpb, l: Ledger, ops: seq<Op>)
    requires 1 <= b.sectorsPerCluster && Bricked(l)
    ensures ApplyAll(b, l, ops) == l
  {
    if ops == [] {
    } else {
      BrickedForever(b, l, ops[..|ops| - 1]);
      BrickedStays(b, l, ops[|ops| - 1]);
    }
  }
}
