/** calculatePodPlan as it runs: filter in place, sort in place, scan, scale, roll out
    (internal/modelcontroller/pod_plan.go). */
module Planner {
  import opened Wrappers
  import opened DeletionOrder
  import opened PodCounts
  import opened PodPlan

  /** The Go slice allPods.Items: a backing array and a length. */
  class PodList {
    var items: array<Pod>
    var len: nat

    ghost predicate Valid() reads this { len <= items.Length }

    ghost function Contents(): seq<Pod>
      requires Valid()
      reads this, items
    {
      items[..len]
    }

    /** Drops terminating Pods, reusing the backing array. */
    method DropTerminating()
      requires Valid()
      modifies this`len, items
      ensures Valid() && Contents() == Select(old(Contents()), Live)
      ensures forall p :: multiset(Contents())[p] == if p.terminating then 0 else multiset(old(Contents()))[p]
    {
      LiveMultiplicities(Contents());
      FilterInPlace();
    }

    method FilterInPlace()
      requires Valid()
      modifies this`len, items
      ensures Valid() && Contents() == Select(old(Contents()), Live)
    {
      ghost var s := Contents();
      var w, i := 0, 0;
      while i < len
        invariant 0 <= w <= i <= len == old(len) <= items.Length
        invariant items[..w] == Select(s[..i], Live)
        invariant items[i..len] == s[i..]
      {
        assert s[..i + 1][..i] == s[..i];
        assert items[i..len][0] == s[i];
        var p := items[i];
        assert items[i + 1..len] == s[i + 1..] by { assert items[i + 1..len] == items[i..len][1..]; }
        if !p.terminating {
          items[w] := p;
          w := w + 1;
        }
        i := i + 1;
      }
      assert s[..i] == s;
      len := w;
    }
  }

  /** `remainder` maps the key of every Pod of `s` that is not in `gone` to that Pod. */
  ghost predicate Remaining(remainder: map<string, Pod>, s: seq<Pod>, gone: seq<Pod>) {
    && remainder.Keys == Keys(s) - Keys(gone)
    && forall k :: k in remainder ==> remainder[k] in s && remainder[k].key == k
  }

  lemma RemainingDrop(remainder: map<string, Pod>, s: seq<Pod>, gone: seq<Pod>, p: Pod)
    requires Remaining(remainder, s, gone)
    ensures Remaining(remainder - {p.key}, s, gone + [p])
  {
    assert Keys(gone + [p]) == Keys(gone) + {p.key};
  }

  method Scan(s: seq<Pod>, expected: string) returns (readyAll: nat, outOfDate: seq<Pod>, remainder: map<string, Pod>)
    ensures readyAll == Count(s, Ready)
    ensures outOfDate == Select(s, Stale(expected))
    ensures Remaining(remainder, s, [])
  {
    readyAll, outOfDate, remainder := 0, [], map[];
    assert s[..0] == [];
    for i := 0 to |s|
      invariant readyAll == Count(s[..i], Ready)
      invariant outOfDate == Select(s[..i], Stale(expected))
      invariant Remaining(remainder, s[..i], [])
    {
      var p := s[i];
      assert s[..i + 1][..i] == s[..i] && s[..i + 1] == s[..i] + [p];
      remainder := remainder[p.key := p];
      assert Keys(s[..i + 1]) == Keys(s[..i]) + {p.key};
      if p.ready { readyAll := readyAll + 1; }
      if p.hash != expected { outOfDate := outOfDate + [p]; }
    }
    assert s[..|s|] == s;
  }

  /** The first deletions or creations: reach the desired scale. */
  method ScaleTo(s: seq<Pod>, desired: int, ghost c: Target, expected: string, remainder0: map<string, Pod>)
    returns (toCreate: seq<string>, toDelete: seq<Pod>, remainder: map<string, Pod>)
    requires Remaining(remainder0, s, []) && desired == Desired(s, c)
    ensures toCreate == Copies(expected, Max(Desired(s, c) - |s|, 0))
    ensures toDelete == s[..Cut(s, c)]
    ensures Remaining(remainder, s, toDelete)
  {
    toCreate, toDelete, remainder := [], [], remainder0;
    var diff := |s| - desired;
    if diff < 0 {
      for i := 0 to -diff
        invariant toCreate == Copies(expected, i)
      {
        toCreate := toCreate + [expected];
      }
    } else if diff > 0 {
      var left, i := diff, 0;
      while i < |s| && left != 0
        invariant 0 <= i <= |s| && 0 <= left && left + i == diff
        invariant toDelete == s[..i]
        invariant Remaining(remainder, s, toDelete)
      {
        RemainingDrop(remainder, s, toDelete, s[i]);
        remainder := remainder - {s[i].key};
        toDelete := toDelete + [s[i]];
        left, i := left - 1, i + 1;
      }
    }
  }

  /** Recreates stale Pods: unready ones at once, one ready one when `allReady`.  Of `stale`,
      the first `unready` are unready. */
  method Recreate(s: seq<Pod>, stale: seq<Pod>, ghost unready: nat, allReady: bool, c: Target,
                  create0: seq<string>, delete0: seq<Pod>, remainder0: map<string, Pod>)
    returns (toCreate: seq<string>, toDelete: seq<Pod>, remainder: map<string, Pod>)
    requires Remaining(remainder0, s, delete0)
    requires unready <= |stale|
    requires forall i :: 0 <= i < |stale| ==> (stale[i].ready <==> unready <= i)
    ensures var n := unready + if allReady && unready < |stale| then 1 else 0;
            && toDelete == delete0 + stale[..n]
            && toCreate == create0 + Copies(c.expected, Min(n, Max(|stale| - c.surge, 0)))
    ensures Remaining(remainder, s, toDelete)
  {
    toCreate, toDelete, remainder := create0, delete0, remainder0;
    var recreated, i := 0, 0;
    while i < |stale|
      invariant 0 <= i <= |stale|
      invariant i <= unready || !allReady
      invariant var n := if i <= unready then i else unready;
        && recreated == Min(n, Max(|stale| - c.surge, 0))
        && toDelete == delete0 + stale[..n]
        && toCreate == create0 + Copies(c.expected, recreated)
      invariant Remaining(remainder, s, toDelete)
    {
      var pod := stale[i];
      if !pod.ready || allReady {
        RemainingDrop(remainder, s, toDelete, pod);
        remainder := remainder - {pod.key};
        assert delete0 + stale[..i] + [pod] == delete0 + stale[..i + 1];
        toDelete := toDelete + [pod];
        if recreated < |stale| - c.surge {
          toCreate := toCreate + [c.expected];
          recreated := recreated + 1;
        }
        if pod.ready { return; }
      }
      i := i + 1;
    }
  }

  /** Lists the remaining Pods in an arbitrary order, each once. */
  method ListRemaining(remainder: map<string, Pod>) returns (toRemain: seq<Pod>)
    requires forall k :: k in remainder ==> remainder[k].key == k
    ensures DistinctKeys(toRemain)
    ensures forall p :: p in toRemain <==> p.key in remainder && remainder[p.key] == p
  {
    toRemain := [];
    var keys := remainder.Keys;
    while keys != {}
      invariant keys <= remainder.Keys
      invariant DistinctKeys(toRemain)
      invariant forall i :: 0 <= i < |toRemain| ==>
        toRemain[i].key in remainder && toRemain[i].key !in keys && remainder[toRemain[i].key] == toRemain[i]
      invariant forall k :: k in remainder && k !in keys ==> remainder[k] in toRemain
      decreases keys
    {
      var k :| k in keys;
      toRemain := toRemain + [remainder[k]];
      keys := keys - {k};
    }
  }

  lemma RemainingKeys(remainder: map<string, Pod>, s: seq<Pod>, gone: seq<Pod>)
    requires Remaining(remainder, s, gone)
    ensures forall k :: k in remainder ==> remainder[k].key == k
  {
  }

  lemma RemainingIsNotGone(remainder: map<string, Pod>, s: seq<Pod>, gone: seq<Pod>, p: Pod)
    requires Remaining(remainder, s, gone) && DistinctKeys(s)
    ensures p.key in remainder && remainder[p.key] == p <==> p in s && p.key !in Keys(gone)
  {
    if p in s && p.key !in Keys(gone) {
      assert p.key in Keys(s);
      KeyDeterminesPod(s, p, remainder[p.key]);
    }
  }

  /** The stale Pods in deletion order, as `Recreate` meets them. */
  lemma StaleSplit(s: seq<Pod>, c: Target)
    requires RankSorted(s, c.expected)
    ensures var stale, unready := Select(s, Stale(c.expected)), Count(s, UnreadyStale(c.expected));
            && unready <= |stale|
            && (forall i :: 0 <= i < |stale| ==> (stale[i].ready <==> unready <= i))
            && (Select(s, ReadyStale(c.expected)) == [] <==> unready == |stale|)
            && Recycled(s, c) == stale[..unready + if DrainsReady(s, c) then 1 else 0]
  {
    var h := c.expected;
    StaleUnreadyFirst(s, h);
    var stale, u, r := Select(s, Stale(h)), Select(s, UnreadyStale(h)), Select(s, ReadyStale(h));
    forall i | 0 <= i < |stale| ensures stale[i].ready <==> |u| <= i {
      if i < |u| { SelectMembers(s, UnreadyStale(h), u[i]); } else { SelectMembers(s, ReadyStale(h), r[i - |u|]); }
    }
  }

  lemma NotGoneIffKept(s: seq<Pod>, c: Target)
    requires DistinctKeys(s)
    ensures forall p :: p in s && p.key !in Keys(ToDelete(s, c)) <==> p in Kept(s, c)
  {
    forall p ensures p in s && p.key !in Keys(ToDelete(s, c)) <==> p in Kept(s, c) {
      SurvivorMembers(s, ToDelete(s, c), p);
      if p in s && p.key in Keys(ToDelete(s, c)) {
        var q :| q in ToDelete(s, c) && q.key == p.key;
        RecycledMembers(s, c, q);
        KeyDeterminesPod(s, p, q);
      }
    }
  }

  lemma SameMembers(remainder: map<string, Pod>, s: seq<Pod>, c: Target, toRemain: seq<Pod>)
    requires DistinctKeys(s) && Remaining(remainder, s, ToDelete(s, c))
    requires forall p :: p in toRemain <==> p.key in remainder && remainder[p.key] == p
    ensures forall p :: p in toRemain <==> p in Kept(s, c)
  {
    NotGoneIffKept(s, c);
    forall p ensures p in toRemain <==> p in Kept(s, c) { RemainingIsNotGone(remainder, s, ToDelete(s, c), p); }
  }

  /** Scaling and recreating together give the plan. */
  lemma PlanParts(s: seq<Pod>, c: Target)
    requires RankSorted(s, c.expected)
    ensures var stale, unready := Select(s, Stale(c.expected)), Count(s, UnreadyStale(c.expected));
            var n := unready + if Count(s, Ready) == Desired(s, c) && unready < |stale| then 1 else 0;
            && n <= |stale|
            && s[..Cut(s, c)] + stale[..n] == ToDelete(s, c)
            && Copies(c.expected, Max(Desired(s, c) - |s|, 0)) + Copies(c.expected, Min(n, Max(|stale| - c.surge, 0)))
               == Copies(c.expected, Created(s, c))
  {
    StaleSplit(s, c);
  }

  /** The plan for a list already filtered and in deletion order. */
  method PlanSorted(s: seq<Pod>, c: Target) returns (plan: Plan)
    requires DistinctKeys(s) && RankSorted(s, c.expected)
    ensures plan.toDelete == ToDelete(s, c)
    ensures plan.toCreate == Copies(c.expected, Created(s, c))
    ensures DistinctKeys(plan.toRemain) && forall p :: p in plan.toRemain <==> p in Kept(s, c)
  {
    hide Remaining, ToDelete, Kept, Created, Copies, Cut, Select, Recycled, Replaced, Holds;
    var readyAll, outOfDate, remainder := Scan(s, c.expected);
    var desired := if c.replicas.Some? then c.replicas.value else 0;
    if |outOfDate| > 0 { desired := desired + c.surge; }
    var toCreate, toDelete;
    toCreate, toDelete, remainder := ScaleTo(s, desired, c, c.expected, remainder);
    assert desired == Desired(s, c);
    StaleSplit(s, c);
    PlanParts(s, c);
    toCreate, toDelete, remainder :=
      Recreate(s, outOfDate, Count(s, UnreadyStale(c.expected)), readyAll == desired, c, toCreate, toDelete, remainder);
    assert toDelete == ToDelete(s, c) && toCreate == Copies(c.expected, Created(s, c));
    RemainingKeys(remainder, s, toDelete);
    var toRemain := ListRemaining(remainder);
    SameMembers(remainder, s, c, toRemain);
    plan := Plan(toCreate, toDelete, toRemain);
  }

  /** Deleted or kept are exactly the listed Pods that are not terminating, each one or the other. */
  lemma ListedIsPlanned(listed: seq<Pod>, sorted: seq<Pod>, c: Target)
    requires multiset(sorted) == multiset(Select(listed, Live))
    ensures forall p :: p in listed && !p.terminating <==> p in ToDelete(sorted, c) || p in Kept(sorted, c)
    ensures forall p :: p in ToDelete(sorted, c) ==> p !in Kept(sorted, c)
  {
    hide ToDelete, Kept;
    forall p ensures (p in listed && !p.terminating <==> p in ToDelete(sorted, c) || p in Kept(sorted, c))
                     && (p in ToDelete(sorted, c) ==> p !in Kept(sorted, c))
    {
      LiveMultiplicity(listed, p);
      assert p in sorted <==> p in multiset(sorted);
      assert p in listed <==> p in multiset(listed);
      Partition(sorted, c, p);
    }
  }

  /** Filters, sorts and plans.  The plan is the one the theorems of `PodPlan` are about. */
  method CalculatePodPlan(list: PodList, c: Target) returns (plan: Plan)
    requires list.Valid() && DistinctKeys(list.Contents())
    modifies list, list.items
    ensures list.Valid()
    ensures list.Contents() == Sorted(Select(old(list.Contents()), Live), c.expected)
    ensures plan.toDelete == ToDelete(list.Contents(), c)
    ensures plan.toCreate == Copies(c.expected, Created(list.Contents(), c))
    ensures DistinctKeys(plan.toRemain) && forall p :: p in plan.toRemain <==> p in Kept(list.Contents(), c)
    ensures forall p :: p in old(list.Contents()) && !p.terminating <==> p in plan.toDelete || p in plan.toRemain
    ensures forall p :: p in plan.toDelete ==> p !in plan.toRemain
    ensures forall h :: h in plan.toCreate ==> h == c.expected
  {
    ghost var listed := list.Contents();
    SelectKeepsDistinct(list.Contents(), Live);
    list.DropTerminating();
    ghost var unsorted := list.Contents();
    SortPodsByDeletionOrder(list.items, list.len, c.expected);
    SortedByRank(unsorted, c.expected);
    SortedIsPermutation(unsorted, c.expected);
    PermutationKeepsDistinct(unsorted, Sorted(unsorted, c.expected));
    plan := PlanSorted(list.items[..list.len], c);
    ListedIsPlanned(listed, list.Contents(), c);
  }
}
