/** Cluster chains: following one, and what an accepted chain is. */
module FatChain {
  import opened Base
  import opened Blocks
  import opened FatLayout

  /** Every link of `chain` is a FAT entry, and the last entry ends it. */
  ghost predicate Linked(v: Volume, d: Image, chain: seq<nat>)
    requires v.Holds(d)
  {
    && v.AllIn(chain)
    && (forall i | 0 <= i < |chain| - 1 :: Fat(v, d, chain[i]) == chain[i + 1])
    && (chain != [] ==> Fat(v, d, chain[|chain| - 1]) >= END_OF_CHAIN)
  }

  /** `chain` is the whole chain that starts at `first`. */
  ghost predicate IsChain(v: Volume, d: Image, first: nat, chain: seq<nat>)
    requires v.Holds(d)
  {
    && Linked(v, d, chain)
    && (if chain == [] then first == 0 || first >= END_OF_CHAIN else chain[0] == first)
  }

  /** The clusters from `cluster` on, giving up outside the partition and after
      `room` of them. */
  ghost function Follow(v: Volume, d: Image, cluster: nat, room: nat): Option<seq<nat>>
    requires v.Holds(d)
    decreases room
  {
    if cluster >= END_OF_CHAIN then Some([])
    else if !v.InRange(cluster) || room == 0 then None
    else
      var rest := Follow(v, d, Fat(v, d, cluster), room - 1);
      if rest.None? then None else Some([cluster] + rest.value)
  }

  ghost function ChainOf(v: Volume, d: Image, first: nat): Option<seq<nat>>
    requires v.Holds(d)
  {
    if first == 0 then Some([]) else Follow(v, d, first, v.clusters + 1)
  }

  /** A chain never repeats a cluster: from equal clusters the same entries
      follow, and the end would be reached at two distances. */
  lemma {:induction false} ChainTailsDiffer(v: Volume, d: Image, chain: seq<nat>, i: nat, j: nat)
    requires v.Holds(d) && Linked(v, d, chain) && i < j < |chain|
    ensures chain[i] != chain[j]
    decreases |chain| - j
  {
    assert Fat(v, d, chain[i]) == chain[i + 1] && v.InRange(chain[i + 1]);
    if j < |chain| - 1 {
      assert Fat(v, d, chain[j]) == chain[j + 1];
      ChainTailsDiffer(v, d, chain, i + 1, j + 1);
    }
  }

  lemma ChainDistinct(v: Volume, d: Image, chain: seq<nat>)
    requires v.Holds(d) && Linked(v, d, chain)
    ensures Distinct(chain)
  {
    forall i, j | 0 <= i < j < |chain|
      ensures chain[i] != chain[j]
    {
      ChainTailsDiffer(v, d, chain, i, j);
    }
  }

  /** Pigeonhole: `n` different numbers in [low, low + m) force n <= m. */
  lemma {:induction false} Pigeonhole(s: seq<nat>, low: nat, m: nat)
    requires Distinct(s) && forall i | 0 <= i < |s| :: low <= s[i] < low + m
    ensures |s| <= m
  {
    if s == [] {
    } else if m > 0 && forall i | 0 <= i < |s| :: s[i] != low + m - 1 {
      Pigeonhole(s, low, m - 1);
    } else {
      assert low <= s[0] < low + m;
      var k :| 0 <= k < |s| && s[k] == low + m - 1;
      var t := s[..k] + s[k + 1..];
      forall i | 0 <= i < |t|
        ensures low <= t[i] < low + m - 1
      {
        assert t[i] == if i < k then s[i] else s[i + 1];
      }
      Pigeonhole(t, low, m - 1);
    }
  }

  lemma ChainShort(v: Volume, d: Image, chain: seq<nat>)
    requires v.Holds(d) && Linked(v, d, chain)
    ensures |chain| <= v.clusters
  {
    ChainDistinct(v, d, chain);
    Pigeonhole(chain, 2, v.clusters);
  }

  lemma {:induction false} FollowFinds(v: Volume, d: Image, chain: seq<nat>, room: nat)
    requires v.Holds(d) && Linked(v, d, chain) && chain != [] && |chain| <= room
    ensures Follow(v, d, chain[0], room) == Some(chain)
  {
    if |chain| > 1 {
      var rest := chain[1..];
      assert forall i | 0 <= i < |rest| - 1 :: Fat(v, d, rest[i]) == rest[i + 1];
      FollowFinds(v, d, rest, room - 1);
      assert chain == [chain[0]] + rest;
    } else {
      assert chain == [chain[0]] + [];
    }
  }

  lemma {:induction false} FollowSound(v: Volume, d: Image, cluster: nat, room: nat)
    requires v.Holds(d) && Follow(v, d, cluster, room).Some?
    decreases room
    ensures cluster != 0 || Follow(v, d, cluster, room).value != []
    ensures IsChain(v, d, cluster, Follow(v, d, cluster, room).value)
  {
    if cluster < END_OF_CHAIN {
      var next := Fat(v, d, cluster);
      FollowSound(v, d, next, room - 1);
      var rest := Follow(v, d, next, room - 1).value;
      var chain := [cluster] + rest;
      forall i | 0 <= i < |chain| - 1
        ensures Fat(v, d, chain[i]) == chain[i + 1]
      {
        assert i > 0 ==> chain[i] == rest[i - 1] && chain[i + 1] == rest[i];
      }
    }
  }

  /** What `chain` accepts: exactly the finite chains that stay inside the
      partition. Only the length is checked, yet no loop gets through and no
      proper chain is refused. */
  lemma ChainOfExact(v: Volume, d: Image, first: nat, chain: seq<nat>)
    requires v.Holds(d)
    ensures ChainOf(v, d, first) == Some(chain) <==> IsChain(v, d, first, chain)
    ensures IsChain(v, d, first, chain) ==> Distinct(chain) && |chain| <= v.clusters
  {
    if first != 0 && ChainOf(v, d, first).Some? {
      FollowSound(v, d, first, v.clusters + 1);
    }
    if IsChain(v, d, first, chain) {
      ChainDistinct(v, d, chain);
      ChainShort(v, d, chain);
      if chain != [] {
        FollowFinds(v, d, chain, v.clusters + 1);
      }
    }
  }

  /** `whole` is the clusters `start` followed by what `rest` finds. */
  ghost predicate Continues(whole: Option<seq<nat>>, start: seq<nat>, rest: Option<seq<nat>>) {
    whole == if rest.None? then None else Some(start + rest.value)
  }

  lemma ContinuesNone(whole: Option<seq<nat>>)
    ensures Continues(whole, [], whole)
  {
    assert whole.Some? ==> [] + whole.value == whole.value;
  }

  lemma FollowEnd(v: Volume, d: Image, whole: Option<seq<nat>>, start: seq<nat>, cluster: nat, room: nat)
    requires v.Holds(d) && Continues(whole, start, Follow(v, d, cluster, room))
    ensures cluster >= END_OF_CHAIN ==> whole == Some(start)
    ensures cluster < END_OF_CHAIN && (!v.InRange(cluster) || room == 0) ==> whole == None
  {
    assert start + [] == start;
  }

  lemma FollowStep(v: Volume, d: Image, whole: Option<seq<nat>>, start: seq<nat>, cluster: nat, room: nat)
    requires v.Holds(d) && v.InRange(cluster) && room > 0
    requires Continues(whole, start, Follow(v, d, cluster, room))
    ensures Continues(whole, start + [cluster], Follow(v, d, Fat(v, d, cluster), room - 1))
  {
    var rest := Follow(v, d, Fat(v, d, cluster), room - 1);
    if rest.Some? {
      assert start + ([cluster] + rest.value) == (start + [cluster]) + rest.value;
    }
  }

  /** The walk gives `ChainOf`: None exactly when no finite chain inside the partition
      starts at `first`. */
  method Chain(v: Volume, disk: Disk, first: nat) returns (r: Option<seq<nat>>)
    requires v.Holds(disk.sectors)
    ensures r == ChainOf(v, disk.sectors, first)
  {
    if first == 0 {
      return Some([]);
    }
    hide Word, Follow, Continues;
    ghost var d := disk.sectors;
    ghost var whole := Follow(v, d, first, v.clusters + 1);
    var chain: seq<nat> := [];
    var cluster: nat := first;
    var cached: Option<(nat, Sector)> := None;
    ContinuesNone(whole);
    while cluster < END_OF_CHAIN
      invariant |chain| <= v.clusters + 1
      invariant Continues(whole, chain, Follow(v, d, cluster, v.clusters + 1 - |chain|))
      invariant cached.Some? ==> cached.value.0 < |d| && cached.value.1 == d[cached.value.0]
      decreases v.clusters + 1 - |chain|
    {
      FollowEnd(v, d, whole, chain, cluster, v.clusters + 1 - |chain|);
      if cluster < 2 || cluster >= v.clusters + 2 {
        return None;
      }
      if |chain| > v.clusters {
        return None;
      }
      FollowStep(v, d, whole, chain, cluster, v.clusters + 1 - |chain|);
      chain := chain + [cluster];
      var lba := v.fatStart + cluster / 128;
      if !(cached.Some? && cached.value.0 == lba) {
        cached := Some((lba, disk.sectors[lba]));
      }
      cluster := Raw(cached.value.1, cluster % 128) % LOW28;
    }
    FollowEnd(v, d, whole, chain, cluster, v.clusters + 1 - |chain|);
    r := Some(chain);
  }

  /** Chains depend only on the FAT entries of their own clusters. */
  lemma ChainFrame(v: Volume, d: Image, e: Image, first: nat, chain: seq<nat>)
    requires v.Holds(d) && v.Holds(e) && IsChain(v, d, first, chain)
    requires forall i | 0 <= i < |chain| :: Fat(v, e, chain[i]) == Fat(v, d, chain[i])
    ensures IsChain(v, e, first, chain) && ChainOf(v, e, first) == Some(chain)
    ensures ChainOf(v, d, first) == Some(chain)
  {
    ChainOfExact(v, d, first, chain);
    ChainOfExact(v, e, first, chain);
  }
}
