/** Cluster chains: linked lists threaded through the file allocation table. */
module Chains {
  import opened Basics
  import opened Bytes
  import opened FatTable

  predicate AllBelow(s: seq<nat>, n: nat) {
    forall k :: 0 <= k < |s| ==> 0 <= s[k] < n
  }

  /** `ch` is a complete chain: in range, acyclic, linked in order and closed by an end mark. */
  predicate IsChain(fat: seq<u16>, ch: seq<nat>) {
    && ch != []
    && (forall k :: 0 <= k < |ch| ==> 2 <= ch[k] < |fat|)
    && (forall k :: 0 <= k < |ch| - 1 ==> fat[ch[k]] == ch[k + 1])
    && fat[ch[|ch| - 1]] >= FIRST_END_MARK
    && NoDuplicates(ch)
  }

  /** The clusters met by following at most `fuel` links from `c`. */
  function Walk(fat: seq<u16>, c: nat, fuel: nat): seq<nat>
    decreases fuel
  {
    if fuel == 0 || !(2 <= c < |fat|) then [] else [c] + Walk(fat, fat[c], fuel - 1)
  }

  /** The chain that starts at `c`; meaningful when the links do lead to an end mark. */
  function ChainFrom(fat: seq<u16>, c: nat): seq<nat> {
    Walk(fat, c, |fat|)
  }

  /** The links from `c` form a complete chain. */
  predicate Terminates(fat: seq<u16>, c: nat) {
    IsChain(fat, ChainFrom(fat, c))
  }

  /** Distinct numbers below `n` are at most `n` many. */
  lemma Pigeonhole(s: seq<nat>, n: nat)
    requires NoDuplicates(s) && AllBelow(s, n)
    ensures |s| <= n
  {
    var below := seq(n, i => i);
    forall x | x in s ensures x in below {
      assert below[x] == x;
    }
    NoDuplicatesIsShorter(s, below);
  }

  lemma {:induction false} WalkFollowsChain(fat: seq<u16>, ch: seq<nat>, k: nat, fuel: nat)
    requires |fat| <= FIRST_END_MARK && IsChain(fat, ch) && k < |ch| && |ch| - k <= fuel
    ensures Walk(fat, ch[k], fuel) == ch[k..]
    decreases |ch| - k
  {
    if k + 1 == |ch| {
    } else {
      WalkFollowsChain(fat, ch, k + 1, fuel - 1);
    }
  }

  /** A chain is determined by its first cluster. */
  lemma ChainIsUnique(fat: seq<u16>, ch: seq<nat>)
    requires |fat| <= FIRST_END_MARK && IsChain(fat, ch)
    ensures ChainFrom(fat, ch[0]) == ch
  {
    Pigeonhole(ch, |fat|);
    WalkFollowsChain(fat, ch, 0, |fat|);
  }

  lemma ChainHead(fat: seq<u16>, c: nat)
    requires Terminates(fat, c)
    ensures ChainFrom(fat, c)[0] == c
  {
  }

  /** No entry of a chain is free. */
  lemma ChainIsAllocated(fat: seq<u16>, ch: seq<nat>)
    requires IsChain(fat, ch)
    ensures forall c :: c in ch ==> 2 <= c < |fat| && fat[c] != FREE
  {
    forall k | 0 <= k < |ch| ensures fat[ch[k]] != FREE {
      if k < |ch| - 1 {
        assert fat[ch[k]] == ch[k + 1];
      }
    }
  }

  /** A chain survives any change to entries outside it. */
  lemma ChainFrame(fat: seq<u16>, fat': seq<u16>, ch: seq<nat>)
    requires |fat'| == |fat| <= FIRST_END_MARK && IsChain(fat, ch)
    requires forall c :: c in ch ==> fat'[c] == fat[c]
    ensures IsChain(fat', ch) && ChainFrom(fat', ch[0]) == ch
  {
    assert forall k :: 0 <= k < |ch| ==> ch[k] in ch;
    assert IsChain(fat', ch);
    ChainIsUnique(fat', ch);
  }

  /** Any later part of a chain is a chain. */
  lemma ChainSuffix(fat: seq<u16>, ch: seq<nat>, k: nat)
    requires |fat| <= FIRST_END_MARK && IsChain(fat, ch) && k < |ch|
    ensures IsChain(fat, ch[k..]) && ChainFrom(fat, ch[k]) == ch[k..]
  {
    assert IsChain(fat, ch[k..]);
    ChainIsUnique(fat, ch[k..]);
  }

  // ----- Linking -----

  /** The table after `c` has been closed and, if there is a chain already, linked behind it. */
  function Linked(fat: seq<u16>, ch: seq<nat>, c: nat): (fat': seq<u16>)
    requires c < |fat| <= FIRST_END_MARK && AllBelow(ch, |fat|)
    ensures |fat'| == |fat|
  {
    if ch == [] then fat[c := END_OF_CHAIN] else fat[c := END_OF_CHAIN][ch[|ch| - 1] := c]
  }

  /** Linking a free cluster behind a chain yields the chain that is one longer. */
  lemma LinkExtendsChain(fat: seq<u16>, ch: seq<nat>, c: nat)
    requires 2 <= c < |fat| <= FIRST_END_MARK && fat[c] == FREE
    requires ch == [] || IsChain(fat, ch)
    ensures AllBelow(ch, |fat|)
    ensures c !in ch && IsChain(Linked(fat, ch, c), ch + [c])
  {
    if ch != [] {
      ChainIsAllocated(fat, ch);
    }
    var fat', ch' := Linked(fat, ch, c), ch + [c];
    assert c !in ch;
    forall k | 0 <= k < |ch'| - 1 ensures fat'[ch'[k]] == ch'[k + 1] {
      assert ch[k] in ch;
      if k < |ch| - 1 {
        assert ch[k] != ch[|ch| - 1];
      }
    }
  }

  // ----- Freeing -----

  /** Every entry of `ch` set to free. */
  function Released(fat: seq<u16>, ch: seq<nat>): (fat': seq<u16>)
    requires AllBelow(ch, |fat|)
    ensures |fat'| == |fat|
    decreases |ch|
  {
    if ch == [] then fat else Released(fat[ch[0] := FREE], ch[1..])
  }

  lemma {:induction false} ReleasedEntries(fat: seq<u16>, ch: seq<nat>)
    requires AllBelow(ch, |fat|)
    ensures forall c :: 0 <= c < |fat| ==> Released(fat, ch)[c] == if c in ch then FREE else fat[c]
    decreases |ch|
  {
    if ch == [] {
    } else {
      ReleasedEntries(fat[ch[0] := FREE], ch[1..]);
      assert ch == [ch[0]] + ch[1..];
    }
  }

  /** Releasing distinct allocated entries frees exactly that many. */
  lemma {:induction false} ReleasedCount(fat: seq<u16>, ch: seq<nat>)
    requires NoDuplicates(ch) && AllBelow(ch, |fat|)
    requires forall k :: 0 <= k < |ch| ==> fat[ch[k]] != FREE
    ensures |FreeClusters(Released(fat, ch))| == |FreeClusters(fat)| + |ch|
    decreases |ch|
  {
    if ch == [] {
    } else {
      assert ch[0] in ch && ch[0] !in ch[1..];
      ReleaseCounts(fat, 0, ch[0]);
      ReleasedCount(fat[ch[0] := FREE], ch[1..]);
    }
  }

  /** Whether the freeing loop started at `c` stays inside the table. */
  predicate FreeWalkStays(fat: seq<u16>, c: nat)
    decreases |fat| - |FreeClusters(fat)|, c >= 2
  {
    if 2 <= c < FIRST_END_MARK then
      c < |fat| && (FreeStep(fat, c); FreeWalkStays(fat[c := FREE], fat[c]))
    else
      true
  }

  /** The table the freeing loop leaves behind, whatever the table holds: cycles included. */
  function FreeWalk(fat: seq<u16>, c: nat): (fat': seq<u16>)
    requires FreeWalkStays(fat, c)
    ensures |fat'| == |fat|
    decreases |fat| - |FreeClusters(fat)|, c >= 2
  {
    if 2 <= c < FIRST_END_MARK then
      FreeStep(fat, c);
      FreeWalk(fat[c := FREE], fat[c])
    else
      fat
  }

  /** Each round of the freeing loop frees an entry or is the last. */
  lemma FreeStep(fat: seq<u16>, c: nat)
    requires c < |fat|
    ensures if fat[c] == FREE then fat[c := FREE] == fat
            else |FreeClusters(fat[c := FREE])| == |FreeClusters(fat)| + 1
  {
    if fat[c] != FREE {
      ReleaseCounts(fat, 0, c);
    }
  }

  /** With all 65536 entries addressable the loop cannot leave the table, whatever it holds. */
  lemma {:induction false} FullTableStays(fat: seq<u16>, c: u16)
    requires |fat| == 0x1_0000
    ensures FreeWalkStays(fat, c)
    decreases |fat| - |FreeClusters(fat)|, c >= 2
  {
    if c < 2 || c >= FIRST_END_MARK {
    } else {
      FreeStep(fat, c);
      FullTableStays(fat[c := FREE], fat[c]);
    }
  }

  /** On a well-formed chain the loop frees exactly the chain. */
  lemma {:induction false} FreeWalkReleases(fat: seq<u16>, ch: seq<nat>)
    requires |fat| <= FIRST_END_MARK && IsChain(fat, ch)
    ensures FreeWalkStays(fat, ch[0]) && FreeWalk(fat, ch[0]) == Released(fat, ch)
    decreases |ch|
  {
    var fat' := fat[ch[0] := FREE];
    if |ch| == 1 {
      FreeStep(fat, ch[0]);
    } else {
      var rest := ch[1..];
      assert IsChain(fat', rest);
      FreeWalkReleases(fat', rest);
    }
  }
}
