/** The rollout planner (internal/modelcontroller/pod_plan.go, calculatePodPlan).

    The plan is stated on a list `s` of non-terminating Pods in deletion order.  The
    theorems ask of `s` only that it is ordered by rank, so they do not depend on how the
    sort treats Pods of equal rank. */
module PodPlan {
  import opened Wrappers
  import opened DeletionOrder
  import opened PodCounts

  /** What a plan is computed for: .spec.replicas, the configured surge, the hash of the
      Pod template. */
  datatype Target = Target(replicas: Option<int>, surge: int, expected: string)

  /** `toCreate` holds the hash label of each Pod to create. */
  datatype Plan = Plan(toCreate: seq<string>, toDelete: seq<Pod>, toRemain: seq<Pod>)

  function Replicas(c: Target): int { if c.replicas.Some? then c.replicas.value else 0 }

  /** The surge is asked for only while a stale Pod exists. */
  function Desired(s: seq<Pod>, c: Target): int {
    Replicas(c) + if Count(s, Stale(c.expected)) > 0 then c.surge else 0
  }

  /** How many Pods, from the front of the deletion order, are deleted to reach the desired scale. */
  function Cut(s: seq<Pod>, c: Target): (n: nat)
    ensures n <= |s|
  {
    Min(Max(|s| - Desired(s, c), 0), |s|)
  }

  /** A ready stale Pod is given up only when exactly the desired number of Pods is ready. */
  predicate DrainsReady(s: seq<Pod>, c: Target) {
    Count(s, Ready) == Desired(s, c) && Select(s, ReadyStale(c.expected)) != []
  }

  /** Deletions of the rollout proper: all unready stale Pods, and at most one ready stale Pod. */
  function Recycled(s: seq<Pod>, c: Target): seq<Pod> {
    Select(s, UnreadyStale(c.expected)) + if DrainsReady(s, c) then [Select(s, ReadyStale(c.expected))[0]] else []
  }

  function ToDelete(s: seq<Pod>, c: Target): seq<Pod> { s[..Cut(s, c)] + Recycled(s, c) }

  /** Recycled Pods are replaced, except that as many as the surge are not when the rollout ends. */
  function Replaced(s: seq<Pod>, c: Target): nat {
    Min(|Recycled(s, c)|, Max(Count(s, Stale(c.expected)) - c.surge, 0))
  }

  /** The hash labels of `n` new Pods. */
  function Copies(expected: string, n: nat): (r: seq<string>)
    ensures |r| == n && forall i :: 0 <= i < n ==> r[i] == expected
  {
    seq(n, _ => expected)
  }

  function Created(s: seq<Pod>, c: Target): nat { Max(Desired(s, c) - |s|, 0) + Replaced(s, c) }

  function Kept(s: seq<Pod>, c: Target): seq<Pod> { Survivors(s, ToDelete(s, c)) }

  /** The number of Pods once the plan has been carried out. */
  function CountAfter(s: seq<Pod>, c: Target): nat { |Kept(s, c)| + Created(s, c) }

  /** A list the planner works on: distinct Pods in deletion order, a sensible target. */
  ghost predicate Planned(s: seq<Pod>, c: Target) {
    DistinctKeys(s) && RankSorted(s, c.expected) && Replicas(c) >= 0 && c.surge >= 0
  }

  // ----- what is left after the deletions, kind by kind

  /** When a ready stale Pod is drained, scaling down removes only unready Pods. */
  lemma CutIsUnready(s: seq<Pod>, c: Target, p: Pod)
    requires Planned(s, c) && DrainsReady(s, c) && p in s[..Cut(s, c)]
    ensures !p.ready
  {
    var cut := Cut(s, c);
    CountAtMostLength(s, Ready);
    ReadyAfterDrop(s, c.expected, cut);
    assert s == s[..cut] + s[cut..];
    SelectConcat(s[..cut], s[cut..], Ready);
    assert Count(s[..cut], Ready) == 0;
    SelectMembers(s[..cut], Ready, p);
  }

  /** The Pods that scaling down leaves. */
  function Rest(s: seq<Pod>, c: Target): seq<Pod> { s[Cut(s, c)..] }

  lemma DeletedFromRest(s: seq<Pod>, c: Target, p: Pod)
    requires Planned(s, c) && p in Rest(s, c)
    ensures p in ToDelete(s, c) <==> p in Recycled(s, c)
  {
    var cut := Cut(s, c);
    var j :| cut <= j < |s| && s[j] == p;
    assert p !in s[..cut];
  }

  lemma KeptComesFromRest(s: seq<Pod>, c: Target)
    requires Planned(s, c)
    ensures Kept(s, c) == Survivors(Rest(s, c), ToDelete(s, c))
  {
    var cut := Cut(s, c);
    assert s == s[..cut] + s[cut..];
    SurvivorsConcat(s[..cut], s[cut..], ToDelete(s, c));
    AllGone(s[..cut], ToDelete(s, c));
  }

  lemma RecycledMembers(s: seq<Pod>, c: Target, p: Pod)
    ensures p in Recycled(s, c) <==>
            p in s && p.hash != c.expected && (!p.ready || (DrainsReady(s, c) && p == Select(s, ReadyStale(c.expected))[0]))
  {
    SelectMembers(s, UnreadyStale(c.expected), p);
    SelectMembers(s, ReadyStale(c.expected), p);
  }

  /** The drained Pod is ready and stale, and scaling down left it. */
  lemma DrainedPod(s: seq<Pod>, c: Target) returns (x: Pod)
    requires Planned(s, c) && DrainsReady(s, c)
    ensures x == Select(s, ReadyStale(c.expected))[0]
    ensures x in Rest(s, c) && x.ready && x.hash != c.expected
  {
    x := Select(s, ReadyStale(c.expected))[0];
    SelectMembers(s, ReadyStale(c.expected), x);
    assert s == s[..Cut(s, c)] + Rest(s, c);
    if x in s[..Cut(s, c)] { CutIsUnready(s, c, x); }
  }

  function Drained(s: seq<Pod>, c: Target): nat { if DrainsReady(s, c) then 1 else 0 }

  lemma KeptKinds(s: seq<Pod>, c: Target)
    requires Planned(s, c)
    ensures Count(Kept(s, c), UnreadyStale(c.expected)) == 0
    ensures Count(Kept(s, c), UnreadyCurrent(c.expected)) == Count(Rest(s, c), UnreadyCurrent(c.expected))
    ensures Count(Kept(s, c), ReadyCurrent(c.expected)) == Count(Rest(s, c), ReadyCurrent(c.expected))
    ensures Count(Kept(s, c), ReadyStale(c.expected)) == Count(Rest(s, c), ReadyStale(c.expected)) - Drained(s, c)
  {
    var rest, gone, h := Rest(s, c), ToDelete(s, c), c.expected;
    KeptComesFromRest(s, c);
    forall p | p in rest
      ensures p in s && (p in gone <==> p.hash != h && (!p.ready || (DrainsReady(s, c) && p == Select(s, ReadyStale(h))[0])))
    {
      DeletedFromRest(s, c, p);
      RecycledMembers(s, c, p);
    }
    KindGone(rest, gone, UnreadyStale(h));
    KindKept(rest, gone, UnreadyCurrent(h));
    KindKept(rest, gone, ReadyCurrent(h));
    if DrainsReady(s, c) {
      var x := DrainedPod(s, c);
      KindLosesOne(rest, gone, ReadyStale(h), x);
    } else {
      KindKept(rest, gone, ReadyStale(h));
    }
  }

  /** Counts over the whole list split into the Pods scaled away and the rest. */
  lemma CountSplit(s: seq<Pod>, c: Target, q: Query)
    ensures Count(s, q) == Count(s[..Cut(s, c)], q) + Count(Rest(s, c), q)
  {
    assert s == s[..Cut(s, c)] + Rest(s, c);
    SelectConcat(s[..Cut(s, c)], Rest(s, c), q);
  }

  // ----- availability

  /** The exact number of ready Pods a plan leaves: scaling down costs ready Pods only beyond
      the desired count, and the rollout costs one more exactly when it drains a ready Pod. */
  lemma ReadyAfterPlan(s: seq<Pod>, c: Target)
    requires Planned(s, c)
    ensures Count(Kept(s, c), Ready) == Min(Count(s, Ready), Desired(s, c)) - Drained(s, c)
  {
    var h := c.expected;
    CountAtMostLength(s, Ready);
    KeptKinds(s, c);
    FourKinds(Kept(s, c), h);
    FourKinds(Rest(s, c), h);
    ReadyAfterDrop(s, h, Cut(s, c));
  }

  /** A plan keeps min(ready, replicas) Pods ready, exactly unless there is no surge, the ready
      Pods are exactly the replicas, and one of them is stale. */
  lemma AvailabilityIff(s: seq<Pod>, c: Target)
    requires Planned(s, c)
    ensures Count(Kept(s, c), Ready) >= Min(Count(s, Ready), Replicas(c)) <==>
            !(c.surge == 0 && Count(s, Ready) == Replicas(c) && Count(s, ReadyStale(c.expected)) > 0)
  {
    ReadyAfterPlan(s, c);
    FourKinds(s, c.expected);
  }

  lemma SelectOne(p: Pod, q: Query)
    ensures Select([p], q) == if Holds(q, p) then [p] else []
  {
    assert [p][..0] == [];
  }

  /** Without surge the plan deletes the one ready Pod, which is stale, and leaves none. */
  lemma NoSurgeExample() returns (s: seq<Pod>, c: Target)
    ensures Planned(s, c) && Count(s, Ready) == Replicas(c) == 1 && Count(Kept(s, c), Ready) == 0
  {
    var p := Pod("default/a", true, true, "old", 0, false);
    s, c := [p], Target(Some(1), 0, "new");
    OneStalePod(p, c);
    ReadyAfterPlan(s, c);
    hide *;
  }

  lemma OneStalePod(p: Pod, c: Target)
    requires p.ready && p.hash != c.expected && c.surge == 0 && c.replicas == Some(1)
    ensures Planned([p], c) && Count([p], Ready) == Desired([p], c) == Replicas(c) == 1 && Drained([p], c) == 1
  {
    SelectOne(p, Ready);
    SelectOne(p, Stale(c.expected));
    SelectOne(p, ReadyStale(c.expected));
    hide Select;
  }

  lemma SurgeKeepsAvailability(s: seq<Pod>, c: Target)
    requires Planned(s, c) && c.surge >= 1
    ensures Count(Kept(s, c), Ready) >= Min(Count(s, Ready), Replicas(c))
  {
    AvailabilityIff(s, c);
  }

  // ----- count bounds

  /** The exact number of Pods after a plan.  The second line is the correction for Pods that
      scaling down and the rollout both delete. */
  lemma CountAfterPlan(s: seq<Pod>, c: Target)
    requires Planned(s, c)
    ensures CountAfter(s, c) ==
            Desired(s, c) - |Recycled(s, c)| + Replaced(s, c)
            + Count(s[..Cut(s, c)], UnreadyStale(c.expected))
  {
    var h := c.expected;
    KeptKinds(s, c);
    FourKinds(Kept(s, c), h);
    FourKinds(Rest(s, c), h);
    CountSplit(s, c, UnreadyStale(h));
  }

  /** Between the replicas and what was there or may surge; exactly the replicas outside a rollout. */
  lemma CountBounds(s: seq<Pod>, c: Target)
    requires Planned(s, c)
    ensures Replicas(c) <= CountAfter(s, c) <= Max(|s|, Replicas(c) + c.surge)
    ensures Count(s, Stale(c.expected)) == 0 ==> CountAfter(s, c) == Replicas(c)
  {
    var h := c.expected;
    CountAfterPlan(s, c);
    FourKinds(s, h);
    CountAtMostLength(s[..Cut(s, c)], UnreadyStale(h));
    CountSplit(s, c, UnreadyStale(h));
  }

  /** Outside a rollout the plan leaves exactly .spec.replicas Pods, none when it is unset. */
  lemma SettledCount(s: seq<Pod>, c: Target)
    requires Planned(s, c) && forall p :: p in s ==> p.hash == c.expected
    ensures c.replicas.None? ==> CountAfter(s, c) == 0 && Kept(s, c) == []
    ensures c.replicas.Some? ==> CountAfter(s, c) == c.replicas.value
  {
    CountAtMostLength(s, Stale(c.expected));
    CountBounds(s, c);
  }

  /** The plan that recycles the last stale Pods of a rollout already at its scale gives up the
      surge with them, as far as there were stale Pods to give up. */
  lemma SurgeEndsWithRollout(s: seq<Pod>, c: Target)
    requires Planned(s, c) && |s| <= Desired(s, c) && Count(s, Stale(c.expected)) > 0
    requires Count(Kept(s, c), Stale(c.expected)) == 0
    ensures CountAfter(s, c) == Replicas(c) + Max(c.surge - Count(s, Stale(c.expected)), 0)
  {
    var h := c.expected;
    assert s[..Cut(s, c)] == [];
    KeptKinds(s, c);
    FourKinds(Kept(s, c), h);
    FourKinds(s, h);
    CountSplit(s, c, ReadyStale(h));
    CountAfterPlan(s, c);
  }

  /** Deleted and kept Pods partition the list, though `ToDelete` may name a Pod twice. */
  lemma Partition(s: seq<Pod>, c: Target, p: Pod)
    ensures p in s <==> p in ToDelete(s, c) || p in Kept(s, c)
    ensures !(p in ToDelete(s, c) && p in Kept(s, c))
  {
    SurvivorMembers(s, ToDelete(s, c), p);
    RecycledMembers(s, c, p);
  }

  // ----- progress

  /** Plans still needed at most: two for each stale Pod and one to settle the scale. */
  function Measure(stale: nat, count: nat, c: Target): nat {
    if stale == 0 then (if count == Replicas(c) then 0 else 1)
    else 2 * stale + if count == Replicas(c) + c.surge then 0 else 1
  }

  /** The one situation in which a plan makes no progress: a rollout at the desired scale,
      with no unready stale Pod, waiting for Pods to become ready. */
  predicate Waiting(s: seq<Pod>, c: Target) {
    && Count(s, Stale(c.expected)) > 0
    && |s| == Desired(s, c)
    && Count(s, UnreadyStale(c.expected)) == 0
    && Count(s, Ready) != Desired(s, c)
  }

  lemma StaleAfterPlan(s: seq<Pod>, c: Target)
    requires Planned(s, c)
    ensures Count(Kept(s, c), Stale(c.expected)) ==
            Count(s, ReadyStale(c.expected)) - Count(s[..Cut(s, c)], ReadyStale(c.expected)) - Drained(s, c)
  {
    KeptKinds(s, c);
    FourKinds(Kept(s, c), c.expected);
    CountSplit(s, c, ReadyStale(c.expected));
  }

  /** No plan loses ground, and every plan gains unless it is done or waiting. */
  lemma PlanProgress(s: seq<Pod>, c: Target)
    requires Planned(s, c)
    ensures var m := Measure(Count(s, Stale(c.expected)), |s|, c);
            var m' := Measure(Count(Kept(s, c), Stale(c.expected)), CountAfter(s, c), c);
            m' <= m && (m == 0 || Waiting(s, c) || m' < m)
  {
    var h := c.expected;
    StaleAfterPlan(s, c);
    CountAfterPlan(s, c);
    CountBounds(s, c);
    FourKinds(s, h);
    CountSplit(s, c, UnreadyStale(h));
  }

  /** With every Pod ready, no plan waits. */
  lemma AllReadyNeverWaits(s: seq<Pod>, c: Target)
    requires forall p :: p in s ==> p.ready
    ensures !Waiting(s, c)
  {
    CountAtMostLength(s, Ready);
  }

  /** A plan has nothing to do exactly when the rollout is complete or waiting for readiness. */
  lemma NoActionIff(s: seq<Pod>, c: Target)
    requires Planned(s, c)
    ensures ToDelete(s, c) == [] && Created(s, c) == 0 <==>
            Measure(Count(s, Stale(c.expected)), |s|, c) == 0 || Waiting(s, c)
  {
    FourKinds(s, c.expected);
    CountAtMostLength(s, Ready);
  }
}
