/** Where the clusters are: free, part of a file, or lost. */
module Space {
  import opened Bytes
  import opened Disk
  import opened Layout
  import opened FatTable
  import opened Chains
  import opened Directory
  import opened Volume
  import opened Storage

  /** Some used slot owns the cluster. */
  ghost predicate Owned(b: Bpb, d: Image, c: nat)
    requires Inv(b, d)
  {
    exists i :: OwnedBySlot(b, d, i, c)
  }

  ghost predicate OwnedBySlot(b: Bpb, d: Image, i: int, c: nat)
    requires Inv(b, d)
  {
    0 <= i < SlotCount(b) && !IsEmptySlot(Slots(b, d)[i]) && c in SlotChain(Fat(b, d), Slots(b, d)[i])
  }

  /** A cluster that is neither free nor part of a file: nothing will ever use it again. */
  ghost predicate Leaked(b: Bpb, d: Image, c: nat)
    requires Inv(b, d)
  {
    IsCluster(b, c) && c !in FreeClusters(Fat(b, d)) && !Owned(b, d, c)
  }

  // ----- Ownership after an operation -----

  lemma OthersOwnTheSame(b: Bpb, d0: Image, d': Image, i: nat, j: int, c: nat)
    requires Inv(b, d0) && Inv(b, d') && i < SlotCount(b) && OthersKept(b, d0, d', i) && j != i
    ensures OwnedBySlot(b, d', j, c) <==> OwnedBySlot(b, d0, j, c)
  {
    if 0 <= j < SlotCount(b) {
      assert SlotKept(b, d0, d', j);
    }
  }

  /** Ownership differs only by what slot `i` owns before and after. */
  lemma OwnedChanges(b: Bpb, d0: Image, d': Image, i: nat, c: nat)
    requires Inv(b, d0) && Inv(b, d') && i < SlotCount(b) && OthersKept(b, d0, d', i)
    requires !OwnedBySlot(b, d0, i, c) && !OwnedBySlot(b, d', i, c)
    ensures Owned(b, d', c) <==> Owned(b, d0, c)
  {
    if Owned(b, d0, c) {
      var j :| OwnedBySlot(b, d0, j, c);
      OthersOwnTheSame(b, d0, d', i, j, c);
    }
    if Owned(b, d', c) {
      var j :| OwnedBySlot(b, d', j, c);
      OthersOwnTheSame(b, d0, d', i, j, c);
    }
  }

  /** What no longer belongs to slot `i` belongs to nobody. */
  lemma OnlyOwner(b: Bpb, d0: Image, d': Image, i: nat, c: nat)
    requires Inv(b, d0) && Inv(b, d') && i < SlotCount(b) && OthersKept(b, d0, d', i)
    requires !OwnedBySlot(b, d', i, c) && (forall j :: j != i ==> !OwnedBySlot(b, d0, j, c))
    ensures !Owned(b, d', c)
  {
    if Owned(b, d', c) {
      var j :| OwnedBySlot(b, d', j, c);
      OthersOwnTheSame(b, d0, d', i, j, c);
    }
  }

  /** A free cluster has no owner, and the clusters of one slot belong to no other. */
  lemma FreeIsNotOwned(b: Bpb, d: Image, c: nat)
    requires Inv(b, d) && c in FreeClusters(Fat(b, d))
    ensures forall j :: !OwnedBySlot(b, d, j, c)
  {
    FreeClustersAreFree(Fat(b, d));
    forall j ensures !OwnedBySlot(b, d, j, c) {
      if 0 <= j < SlotCount(b) && !IsEmptySlot(Slots(b, d)[j]) {
        ChainIsAllocated(Fat(b, d), SlotChain(Fat(b, d), Slots(b, d)[j]));
      }
    }
  }

  lemma OwnerIsUnique(b: Bpb, d: Image, i: int, j: int, c: nat)
    requires Inv(b, d) && OwnedBySlot(b, d, i, c) && OwnedBySlot(b, d, j, c)
    ensures i == j
  {
    assert i == j || Disjoint(SlotChain(Fat(b, d), Slots(b, d)[i]), SlotChain(Fat(b, d), Slots(b, d)[j]));
  }

  /** Freeing the chain of slot `i` makes free what was free and what the slot owned. */
  lemma FreedSet(b: Bpb, d0: Image, i: nat, c: nat)
    requires Inv(b, d0) && i < SlotCount(b) && !IsEmptySlot(Slots(b, d0)[i])
    ensures c in FreeClusters(FreedFat(Fat(b, d0), Slots(b, d0)[i])) <==>
              c in FreeClusters(Fat(b, d0)) || OwnedBySlot(b, d0, i, c)
  {
    var fat0, s := Fat(b, d0), Slots(b, d0)[i];
    ChainIsAllocated(fat0, SlotChain(fat0, s));
    ReleasedEntries(fat0, SlotChain(fat0, s));
    FreeClustersAreFree(fat0);
    FreeClustersAreFree(FreedFat(fat0, s));
  }

  lemma InSplit(s: seq<nat>, k: nat, c: nat)
    requires k <= |s|
    ensures c in s <==> c in s[..k] || c in s[k..]
  {
    assert s == s[..k] + s[k..];
  }

  // ----- What leaks -----

  lemma CreatedSlot(b: Bpb, d0: Image, d': Image, i: nat, file: File, need: nat)
    requires Created(b, d0, d', i, file, need)
    ensures IsEmptySlot(Slots(b, d')[i]) <==> !file.File?
  {
    assert Files(b, d')[i] == file;
  }

  /** A successful creation leaks nothing, unless the name makes the new entry count as no file. */
  lemma CreateLeaks(b: Bpb, d0: Image, d': Image, i: nat, file: File, need: nat, c: nat)
    requires Inv(b, d0) && Created(b, d0, d', i, file, need) && IsEmptySlot(Slots(b, d0)[i])
    ensures Leaked(b, d', c) <==>
              Leaked(b, d0, c) || (!file.File? && IsCluster(b, c) && c in FreeClusters(Fat(b, d0))[..need])
  {
    var free := FreeClusters(Fat(b, d0));
    InSplit(free, need, c);
    CreatedSlot(b, d0, d', i, file, need);
    FreeClustersAreFree(Fat(b, d0));
    if c in free[need..] {
      AscendingSplit(free, need, c);
    } else if c in free[..need] {
      FreeIsNotOwned(b, d0, c);
      if file.File? {
        assert OwnedBySlot(b, d', i, c);
      } else {
        OnlyOwner(b, d0, d', i, c);
      }
    } else {
      OwnedChanges(b, d0, d', i, c);
    }
  }

  /** A creation that runs out of space leaks every cluster that was free. */
  lemma FailedCreateLeaks(b: Bpb, d0: Image, d': Image, c: nat)
    requires CreateFailed(b, d0, d')
    ensures Leaked(b, d', c) <==> Leaked(b, d0, c) || (IsCluster(b, c) && c in FreeClusters(Fat(b, d0)))
  {
    forall j ensures OwnedBySlot(b, d', j, c) <==> OwnedBySlot(b, d0, j, c) {
      if 0 <= j < SlotCount(b) {
        assert SlotKept(b, d0, d', j);
      }
    }
    if c in FreeClusters(Fat(b, d0)) {
      FreeIsNotOwned(b, d0, c);
    }
  }

  /** A successful overwrite leaks nothing. */
  lemma OverwriteLeaks(b: Bpb, d0: Image, d': Image, i: nat, name: FileName, ext: Extension, data: seq<byte>, c: nat)
    requires Inv(b, d0) && i < SlotCount(b) && Matches(Slots(b, d0)[i], name, ext)
    requires Overwritten(b, d0, d', i, name, ext, data)
    ensures Leaked(b, d', c) <==> Leaked(b, d0, c)
  {
    var free, need := FreeClusters(FreedFat(Fat(b, d0), Slots(b, d0)[i])), ClustersNeeded(b, |data|);
    InSplit(free, need, c);
    FreedSet(b, d0, i, c);
    assert FileOf(b, d', Slots(b, d')[i]).File?;
    if c in free {
      assert c in free[need..] || OwnedBySlot(b, d', i, c);
    } else {
      OwnedChanges(b, d0, d', i, c);
    }
  }

  /**
   * An overwrite that runs out of space leaks exactly the free clusters in front of the old first cluster: none if
   * that cluster was smaller than every free one.
   */
  lemma FailedOverwriteLeaks(b: Bpb, d0: Image, d': Image, i: nat, name: FileName, ext: Extension, data: seq<byte>, c: nat)
    requires Inv(b, d0) && i < SlotCount(b) && Matches(Slots(b, d0)[i], name, ext)
    requires Damaged(b, d0, d', i, name, ext, data)
    ensures var s := Slots(b, d0)[i];
      var free := FreeClusters(FreedFat(Fat(b, d0), s));
      Leaked(b, d', c) <==>
        Leaked(b, d0, c) || (IsCluster(b, c) && c in free[..IndexOf(free, Decode(s).clusterLow)])
  {
    var s := Slots(b, d0)[i];
    var free := FreeClusters(FreedFat(Fat(b, d0), s));
    var p := IndexOf(free, Decode(s).clusterLow);
    InSplit(free, p, c);
    FreedSet(b, d0, i, c);
    FreeClustersAreFree(FreedFat(Fat(b, d0), s));
    if c in free[p..] {
      assert OwnedBySlot(b, d', i, c);
      AscendingSplit(free, p, c);
    } else if c in free[..p] {
      if c in FreeClusters(Fat(b, d0)) {
        FreeIsNotOwned(b, d0, c);
      } else {
        forall j | j != i ensures !OwnedBySlot(b, d0, j, c) {
          if OwnedBySlot(b, d0, j, c) {
            OwnerIsUnique(b, d0, i, j, c);
          }
        }
      }
      OnlyOwner(b, d0, d', i, c);
    } else {
      OwnedChanges(b, d0, d', i, c);
    }
  }

  lemma AscendingSplit(s: seq<nat>, k: nat, c: nat)
    requires Ascending(s) && k <= |s| && c in s[k..]
    ensures c !in s[..k]
  {
    var x :| 0 <= x < |s[k..]| && s[k..][x] == c;
    assert s[k + x] == c;
  }
}
