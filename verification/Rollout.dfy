/** Carrying out plans (internal/modelcontroller/pod_plan.go, podPlan.execute) and whole
    rollouts: what holds between any two API calls, and what every run of plans reaches. */
module Rollout {
  import opened Wrappers
  import opened DeletionOrder
  import opened PodCounts
  import opened PodPlan

  /** The non-terminating Pods of a model as the API server knows them: key to hash label. */
  type Cluster = map<string, string>

  // ----- execute

  /** `count` Pods created one after another; a name already taken is skipped. */
  function AddPods(live: Cluster, names: seq<string>, hashes: seq<string>, count: nat): Cluster
    requires count <= |names| && count <= |hashes|
  {
    if count == 0 then live
    else
      var before := AddPods(live, names, hashes, count - 1);
      if names[count - 1] in before then before else before[names[count - 1] := hashes[count - 1]]
  }

  /** Creating leaves every Pod that was there as it is, whatever its name. */
  lemma {:induction false} TakenNamesStay(live: Cluster, names: seq<string>, hashes: seq<string>, count: nat, k: string)
    requires count <= |names| && count <= |hashes| && k in live
    ensures k in AddPods(live, names, hashes, count) && AddPods(live, names, hashes, count)[k] == live[k]
  {
    if count > 0 { TakenNamesStay(live, names, hashes, count - 1, k); }
  }

  /** Creating adds just the given names, a free one with its hash. */
  lemma {:induction false} CreatedPods(live: Cluster, names: seq<string>, hashes: seq<string>, count: nat, k: string)
    requires count <= |names| && count <= |hashes| && k !in live
    ensures k in AddPods(live, names, hashes, count) <==> exists i :: 0 <= i < count && names[i] == k
    ensures k in AddPods(live, names, hashes, count) ==>
              exists i :: 0 <= i < count && names[i] == k && AddPods(live, names, hashes, count)[k] == hashes[i]
  {
    if count > 0 { CreatedPods(live, names, hashes, count - 1, k); }
  }

  function Calls(plan: Plan): nat { |plan.toDelete| + |plan.toCreate| }

  /** The cluster after the first `n` API calls of a plan: all deletions come first. */
  function AfterCalls(live: Cluster, plan: Plan, names: seq<string>, n: nat): Cluster
    requires n <= Calls(plan) && |names| == |plan.toCreate|
  {
    if n <= |plan.toDelete| then live - Keys(plan.toDelete[..n])
    else AddPods(live - Keys(plan.toDelete), names, plan.toCreate, n - |plan.toDelete|)
  }

  class PodApi {
    var pods: Cluster
    /** The call, counted from zero, that fails with an error other than not-found or already-exists. */
    const failsAt: nat

    constructor (pods: Cluster, failsAt: nat)
      ensures this.pods == pods && this.failsAt == failsAt
    {
      this.pods, this.failsAt := pods, failsAt;
    }

    /** Issues the calls of a plan until one fails.  `names` are the names the server generates. */
    method Execute(plan: Plan, names: seq<string>) returns (changed: bool, ok: bool)
      requires |names| == |plan.toCreate|
      modifies this`pods
      ensures pods == AfterCalls(old(pods), plan, names, Min(failsAt, Calls(plan)))
      ensures ok <==> Calls(plan) <= failsAt
      ensures changed <==> 0 < failsAt && 0 < Calls(plan)
    {
      changed := false;
      var d := 0;
      while d < |plan.toDelete|
        invariant 0 <= d <= |plan.toDelete| && d <= failsAt
        invariant pods == old(pods) - Keys(plan.toDelete[..d])
        invariant changed <==> d > 0
      {
        if d == failsAt { return changed, false; }
        assert plan.toDelete[..d + 1] == plan.toDelete[..d] + [plan.toDelete[d]];
        assert Keys(plan.toDelete[..d + 1]) == Keys(plan.toDelete[..d]) + {plan.toDelete[d].key};
        if plan.toDelete[d].key in pods {
          pods := pods - {plan.toDelete[d].key};
        }
        changed := true;
        d := d + 1;
      }
      assert plan.toDelete[..d] == plan.toDelete;
      var k := 0;
      while k < |plan.toCreate|
        invariant 0 <= k <= |plan.toCreate| && d + k <= failsAt
        invariant pods == AddPods(old(pods) - Keys(plan.toDelete), names, plan.toCreate, k)
        invariant changed <==> d + k > 0
      {
        if d + k == failsAt { return changed, false; }
        if names[k] !in pods {
          pods := pods[names[k] := plan.toCreate[k]];
        }
        changed := true;
        k := k + 1;
      }
      ok := true;
    }
  }

  // ----- one round: list, plan, execute

  /** One pass of the controller: the cluster, the listing it reads, the listing in deletion
      order, the names given to the Pods it creates, and how many API calls it makes before one
      fails or the controller stops. */
  datatype Round = Round(live: Cluster, items: seq<Pod>, sorted: seq<Pod>, names: seq<string>, calls: nat)

  /** The listing is an accurate snapshot.  Readiness and scheduling are arbitrary. */
  ghost predicate Lists(items: seq<Pod>, live: Cluster) {
    && DistinctKeys(items)
    && (forall p :: p in items && !p.terminating ==> p.key in live && live[p.key] == p.hash)
    && (forall k :: k in live ==> exists p :: p in items && !p.terminating && p.key == k)
  }

  function PlanOf(s: seq<Pod>, c: Target): Plan {
    Plan(Copies(c.expected, Created(s, c)), ToDelete(s, c), Kept(s, c))
  }

  ghost predicate Fresh(names: seq<string>, live: Cluster) {
    && (forall i, j :: 0 <= i < j < |names| ==> names[i] != names[j])
    && (forall i :: 0 <= i < |names| ==> names[i] !in live)
  }

  ghost predicate ValidRound(r: Round, c: Target) {
    && Lists(r.items, r.live)
    && (forall p :: multiset(r.sorted)[p] == if p.terminating then 0 else multiset(r.items)[p])
    && RankSorted(r.sorted, c.expected)
    && |r.names| == Created(r.sorted, c) && Fresh(r.names, r.live) && r.calls <= Calls(PlanOf(r.sorted, c))
    && Replicas(c) >= 0 && c.surge >= 0
  }

  function After(r: Round, c: Target): Cluster
    requires |r.names| == Created(r.sorted, c) && r.calls <= Calls(PlanOf(r.sorted, c))
  {
    AfterCalls(r.live, PlanOf(r.sorted, c), r.names, r.calls)
  }

  /** Every API call of the plan succeeded. */
  predicate Finished(r: Round, c: Target) { r.calls == Calls(PlanOf(r.sorted, c)) }

  function StaleKeys(live: Cluster, h: string): set<string> { set k | k in live && live[k] != h }

  /** `s` lists exactly the Pods of `live`. */
  ghost predicate Describes(s: seq<Pod>, live: Cluster) {
    DistinctKeys(s) && Keys(s) == live.Keys && forall p :: p in s ==> p.key in live && live[p.key] == p.hash
  }

  lemma SortedMembers(r: Round, c: Target)
    requires ValidRound(r, c)
    ensures DistinctKeys(r.sorted) && forall p :: p in r.sorted <==> p in r.items && !p.terminating
  {
    var t := Select(r.items, Live);
    LiveMultiplicities(r.items);
    SelectKeepsDistinct(r.items, Live);
    hide Select, Lists;
    assert forall p :: multiset(t)[p] == multiset(r.sorted)[p];
    assert multiset(t) == multiset(r.sorted);
    PermutationKeepsDistinct(t, r.sorted);
    hide DistinctKeys;
    forall p ensures p in r.sorted <==> p in r.items && !p.terminating {
      assert p in r.sorted <==> p in multiset(r.sorted);
      assert p in r.items <==> p in multiset(r.items);
    }
  }

  lemma SortedDescribes(r: Round, c: Target)
    requires ValidRound(r, c)
    ensures Describes(r.sorted, r.live) && Planned(r.sorted, c)
  {
    SortedMembers(r, c);
    hide DistinctKeys, RankSorted;
    forall k ensures k in Keys(r.sorted) <==> k in r.live {
      if k in r.live {
        var p :| p in r.items && !p.terminating && p.key == k;
        assert p in r.sorted;
      }
    }
  }

  lemma CountsOfCluster(s: seq<Pod>, live: Cluster, h: string)
    requires Describes(s, live)
    ensures |live| == |s| && |StaleKeys(live, h)| == Count(s, Stale(h))
  {
    KeyCount(s);
    assert |live| == |live.Keys|;
    SelectKeepsDistinct(s, Stale(h));
    KeyCount(Select(s, Stale(h)));
    forall k ensures k in StaleKeys(live, h) <==> k in Keys(Select(s, Stale(h))) {
      if k in live {
        var p :| p in s && p.key == k;
        SelectMembers(s, Stale(h), p);
      }
      if k in Keys(Select(s, Stale(h))) {
        var p :| p in Select(s, Stale(h)) && p.key == k;
        SelectMembers(s, Stale(h), p);
      }
    }
    assert StaleKeys(live, h) == Keys(Select(s, Stale(h)));
  }

  /** What a list still describes once some of its Pods are deleted. */
  lemma KeptDescribes(s: seq<Pod>, live: Cluster, gone: seq<Pod>)
    requires Describes(s, live) && forall p :: p in gone ==> p in s
    ensures Describes(Survivors(s, gone), live - Keys(gone))
  {
    SurvivorsDistinct(s, gone);
    forall p | p in s ensures p in Survivors(s, gone) <==> p.key !in Keys(gone) {
      SurvivorMembers(s, gone, p);
      if p.key in Keys(gone) {
        var q :| q in gone && q.key == p.key;
        KeyDeterminesPod(s, p, q);
      }
    }
    forall p | p in Survivors(s, gone) ensures p in s { SurvivorMembers(s, gone, p); }
    forall k | k in live.Keys - Keys(gone) ensures k in Keys(Survivors(s, gone)) {
      var p :| p in s && p.key == k;
      assert p in Survivors(s, gone);
    }
    assert Keys(Survivors(s, gone)) == (live - Keys(gone)).Keys;
  }

  lemma AddOnePod(live: Cluster, x: string, h: string)
    requires x !in live
    ensures var m := live[x := h];
            m.Keys == live.Keys + {x} && |m| == |live| + 1 && StaleKeys(m, h) == StaleKeys(live, h)
  {
    assert live[x := h].Keys == live.Keys + {x};
    assert |live[x := h]| == |live[x := h].Keys|;
  }

  /** The names from the n-th on are still free. */
  ghost predicate Free(names: seq<string>, n: nat, live: Cluster) {
    forall i :: n <= i < |names| ==> names[i] !in live
  }

  lemma {:induction false} AddFreshPods(live: Cluster, names: seq<string>, h: string, hashes: seq<string>, n: nat)
    requires n <= |names| && n <= |hashes| && Fresh(names, live) && forall i :: 0 <= i < |hashes| ==> hashes[i] == h
    ensures var m := AddPods(live, names, hashes, n);
            Free(names, n, m) && live.Keys <= m.Keys && |m| == |live| + n && StaleKeys(m, h) == StaleKeys(live, h)
  {
    if n > 0 {
      AddFreshPods(live, names, h, hashes, n - 1);
      var before := AddPods(live, names, hashes, n - 1);
      AddOnePod(before, names[n - 1], h);
      assert AddPods(live, names, hashes, n) == before[names[n - 1] := h];
    }
  }

  lemma DeletedArePlanned(s: seq<Pod>, c: Target)
    requires Planned(s, c)
    ensures forall p :: p in ToDelete(s, c) ==> p in s
  {
    forall p | p in ToDelete(s, c) ensures p in s { RecycledMembers(s, c, p); }
  }

  lemma SurvivorsOfKeys(s: seq<Pod>, live: Cluster, c: Target, names: seq<string>, n: nat)
    requires Describes(s, live) && Planned(s, c) && Fresh(names, live) && |names| == Created(s, c) && n <= |names|
    ensures var m := AddPods(live - Keys(ToDelete(s, c)), names, PlanOf(s, c).toCreate, n);
            |m| == |Kept(s, c)| + n && |StaleKeys(m, c.expected)| == Count(Kept(s, c), Stale(c.expected))
            && Keys(Kept(s, c)) <= m.Keys
  {
    var left := live - Keys(ToDelete(s, c));
    DeletedArePlanned(s, c);
    KeptDescribes(s, live, ToDelete(s, c));
    CountsOfCluster(Kept(s, c), left, c.expected);
    AddFreshPods(left, names, c.expected, PlanOf(s, c).toCreate, n);
  }

  function PlansLeft(live: Cluster, c: Target): nat { Measure(|StaleKeys(live, c.expected)|, |live|, c) }

  /** Creations add no stale Pod, so the stale Pods after some calls are those not yet deleted. */
  lemma StaleDuringCalls(s: seq<Pod>, live: Cluster, c: Target, names: seq<string>, n: nat)
    requires Fresh(names, live) && |names| == Created(s, c) && n <= Calls(PlanOf(s, c))
    ensures StaleKeys(AfterCalls(live, PlanOf(s, c), names, n), c.expected) ==
            StaleKeys(live - Keys(ToDelete(s, c)[..Min(n, |ToDelete(s, c)|)]), c.expected)
  {
    hide ToDelete, Created, Keys;
    var gone := ToDelete(s, c);
    if n > |gone| {
      assert gone[..|gone|] == gone;
      AddFreshPods(live - Keys(gone), names, c.expected, PlanOf(s, c).toCreate, n - |gone|);
    }
  }

  /** At the desired scale of a rollout every deletion is of a stale Pod. */
  lemma FirstCallIsProgress(s: seq<Pod>, live: Cluster, c: Target, n: nat)
    requires Describes(s, live) && Planned(s, c) && |s| == Desired(s, c) && 0 < n <= |ToDelete(s, c)|
    ensures |StaleKeys(live - Keys(ToDelete(s, c)[..n]), c.expected)| < |StaleKeys(live, c.expected)|
  {
    var gone := ToDelete(s, c);
    var p := gone[0];
    assert s[..Cut(s, c)] == [] && p in Recycled(s, c);
    RecycledMembers(s, c, p);
    assert p in gone[..n] && p.key in Keys(gone[..n]);
    FewerStale(live - Keys(gone[..n]), live, c.expected, p.key);
  }

  lemma FewerStale(now: Cluster, live: Cluster, h: string, x: string)
    requires StaleKeys(now, h) <= StaleKeys(live, h) - {x} && x in StaleKeys(live, h)
    ensures |StaleKeys(now, h)| < |StaleKeys(live, h)|
  {
    NoLarger(StaleKeys(now, h), StaleKeys(live, h) - {x});
  }

  lemma NoLarger(a: set<string>, b: set<string>)
    requires a <= b
    ensures |a| <= |b|
  {
    assert b == a + (b - a);
  }

  lemma NothingToDo(s: seq<Pod>, c: Target)
    requires Planned(s, c) && |s| == Desired(s, c)
    ensures ToDelete(s, c) == [] ==> Calls(PlanOf(s, c)) == 0
    ensures Count(s, Stale(c.expected)) == 0 ==> Calls(PlanOf(s, c)) == 0
  {
    NoActionIff(s, c);
  }

  lemma MeasureBound(stale: nat, count: nat, stale': nat, count': nat, c: Target)
    requires stale' <= stale
    requires count == Replicas(c) + (if stale > 0 then c.surge else 0) ==> stale' < stale || (stale' == stale && count' == count)
    ensures Measure(stale', count', c) <= Measure(stale, count, c)
  {
  }

  /** No prefix of the API calls of a plan adds to the plans left. */
  lemma PrefixLosesNoGround(s: seq<Pod>, live: Cluster, c: Target, names: seq<string>, n: nat)
    requires Describes(s, live) && Planned(s, c) && Fresh(names, live) && |names| == Created(s, c)
    requires n <= Calls(PlanOf(s, c))
    ensures PlansLeft(AfterCalls(live, PlanOf(s, c), names, n), c) <= PlansLeft(live, c)
  {
    hide Describes, Planned, Fresh, ToDelete, Created, Keys, StaleKeys, Count, Measure;
    var gone, h := ToDelete(s, c), c.expected;
    var d := Min(n, |gone|);
    var left, now := live - Keys(gone[..d]), AfterCalls(live, PlanOf(s, c), names, n);
    StaleDuringCalls(s, live, c, names, n);
    CountsOfCluster(s, live, h);
    StaleSubset(left, live, h);
    if |s| == Desired(s, c) {
      NothingToDo(s, c);
      if n == 0 { NoCalls(live, PlanOf(s, c), names); } else { FirstCallIsProgress(s, live, c, d); }
    }
    MeasureBound(|StaleKeys(live, h)|, |live|, |StaleKeys(left, h)|, |now|, c);
  }

  lemma StaleSubset(now: Cluster, live: Cluster, h: string)
    requires now.Items <= live.Items
    ensures |StaleKeys(now, h)| <= |StaleKeys(live, h)|
  {
    forall k | k in StaleKeys(now, h) ensures k in StaleKeys(live, h) { assert (k, now[k]) in now.Items; }
    NoLarger(StaleKeys(now, h), StaleKeys(live, h));
  }

  lemma NoCalls(live: Cluster, plan: Plan, names: seq<string>)
    requires |names| == |plan.toCreate|
    ensures AfterCalls(live, plan, names, 0) == live
  {
    assert plan.toDelete[..0] == [] && Keys([]) == {};
  }

  /** One round in numbers, read off the cluster alone: cut short it loses no ground, and
      finished it gains unless it is done or waiting. */
  lemma {:induction false} RoundProgress(r: Round, c: Target)
    requires ValidRound(r, c)
    ensures PlansLeft(After(r, c), c) <= PlansLeft(r.live, c)
    ensures Finished(r, c) ==>
            PlansLeft(r.live, c) == 0 || Waiting(r.sorted, c) || PlansLeft(After(r, c), c) < PlansLeft(r.live, c)
  {
    SortedDescribes(r, c);
    PrefixLosesNoGround(r.sorted, r.live, c, r.names, r.calls);
    if Finished(r, c) {
      CountsOfCluster(r.sorted, r.live, c.expected);
      SurvivorsOfKeys(r.sorted, r.live, c, r.names, |r.names|);
      PlanProgress(r.sorted, c);
      AfterAllCalls(r, c);
    }
  }

  lemma AfterAllCalls(r: Round, c: Target)
    requires |r.names| == Created(r.sorted, c) && Finished(r, c)
    ensures After(r, c) == AddPods(r.live - Keys(ToDelete(r.sorted, c)), r.names, PlanOf(r.sorted, c).toCreate, |r.names|)
  {
    var plan := PlanOf(r.sorted, c);
    assert plan.toDelete[..|plan.toDelete|] == plan.toDelete;
  }

  // ----- between any two API calls

  /** The Pods of the snapshot that were ready and still exist. */
  function StillReady(s: seq<Pod>, now: Cluster): set<string> { set p | p in s && p.ready && p.key in now :: p.key }

  lemma DuringDeletes(s: seq<Pod>, live: Cluster, c: Target, n: nat)
    requires Describes(s, live) && Planned(s, c) && n <= |ToDelete(s, c)|
    ensures var now := live - Keys(ToDelete(s, c)[..n]);
            |now| <= |live| && Keys(Kept(s, c)) <= now.Keys
  {
    var gone := ToDelete(s, c);
    DeletedArePlanned(s, c);
    KeptDescribes(s, live, gone);
    assert Keys(gone[..n]) <= Keys(gone);
    FewerKeys(live - Keys(gone[..n]), live);
  }

  lemma PrefixOfCalls(s: seq<Pod>, live: Cluster, c: Target, names: seq<string>, n: nat)
    requires Describes(s, live) && Planned(s, c) && Fresh(names, live) && |names| == Created(s, c)
    requires n <= Calls(PlanOf(s, c))
    ensures var now := AfterCalls(live, PlanOf(s, c), names, n);
            |now| <= Max(|live|, CountAfter(s, c)) && Keys(Kept(s, c)) <= now.Keys
  {
    hide Describes, Planned, Fresh, ToDelete, Kept, Created, Keys, AddPods;
    if n <= |ToDelete(s, c)| {
      DuringDeletes(s, live, c, n);
    } else {
      SurvivorsOfKeys(s, live, c, names, n - |ToDelete(s, c)|);
    }
  }

  /** After every prefix of the API calls of a plan, so also when one fails or the controller
      crashes, the Pod count is within the surge and the ready Pods number min(ready, replicas). */
  lemma {:induction false} EveryPrefixIsSafe(r: Round, c: Target, n: nat)
    requires ValidRound(r, c) && n <= Calls(PlanOf(r.sorted, c))
    ensures var now := AfterCalls(r.live, PlanOf(r.sorted, c), r.names, n);
            && |now| <= Max(|r.live|, Replicas(c) + c.surge)
            && (c.surge >= 1 ==> |StillReady(r.sorted, now)| >= Min(Count(r.sorted, Ready), Replicas(c)))
  {
    SortedDescribes(r, c);
    CountsOfCluster(r.sorted, r.live, c.expected);
    CountBounds(r.sorted, c);
    PrefixOfCalls(r.sorted, r.live, c, r.names, n);
    ReadyKeptStillReady(r.sorted, c, AfterCalls(r.live, PlanOf(r.sorted, c), r.names, n));
    if c.surge >= 1 { SurgeKeepsAvailability(r.sorted, c); }
  }

  lemma FewerKeys(a: Cluster, b: Cluster)
    requires a.Keys <= b.Keys
    ensures |a| <= |b|
  {
    assert |b.Keys| == |a.Keys| + |b.Keys - a.Keys| by { assert b.Keys == a.Keys + (b.Keys - a.Keys); }
    assert |a| == |a.Keys| && |b| == |b.Keys|;
  }

  lemma ReadyKeptStillReady(s: seq<Pod>, c: Target, now: Cluster)
    requires Planned(s, c) && Keys(Kept(s, c)) <= now.Keys
    ensures |StillReady(s, now)| >= Count(Kept(s, c), Ready)
  {
    var ready := Select(Kept(s, c), Ready);
    SurvivorsDistinct(s, ToDelete(s, c));
    SelectKeepsDistinct(Kept(s, c), Ready);
    KeyCount(ready);
    forall k | k in Keys(ready) ensures k in StillReady(s, now) {
      var p :| p in ready && p.key == k;
      SelectMembers(Kept(s, c), Ready, p);
      SurvivorMembers(s, ToDelete(s, c), p);
    }
    assert StillReady(s, now) == Keys(ready) + (StillReady(s, now) - Keys(ready));
  }

  // ----- whole runs

  /** Rounds, finished or cut short, follow one another; between rounds only readiness and
      scheduling change. */
  ghost predicate Run(rounds: seq<Round>, c: Target) {
    rounds != [] ==>
      var front, r := rounds[..|rounds| - 1], rounds[|rounds| - 1];
      ValidRound(r, c) && Run(front, c) && (front != [] ==> r.live == End(front, c))
  }

  /** The cluster once all rounds are carried out. */
  ghost function End(rounds: seq<Round>, c: Target): Cluster
    requires rounds != [] && ValidRound(rounds[|rounds| - 1], c)
  {
    After(rounds[|rounds| - 1], c)
  }

  /** The rounds that finished and did not merely wait for readiness. */
  function Effective(rounds: seq<Round>, c: Target): nat {
    if rounds == [] then 0
    else
      var r := rounds[|rounds| - 1];
      Effective(rounds[..|rounds| - 1], c) + if Finished(r, c) && !Waiting(r.sorted, c) then 1 else 0
  }

  predicate Complete(live: Cluster, c: Target) {
    StaleKeys(live, c.expected) == {} && |live| == Replicas(c)
  }

  lemma {:induction false} RunMeasure(rounds: seq<Round>, c: Target)
    requires Run(rounds, c) && rounds != []
    ensures PlansLeft(End(rounds, c), c) <= Max(PlansLeft(rounds[0].live, c) - Effective(rounds, c), 0)
  {
    hide ValidRound, After, Finished, Waiting, PlansLeft;
    var front, r := rounds[..|rounds| - 1], rounds[|rounds| - 1];
    RoundProgress(r, c);
    if front == [] {
      assert Effective(front, c) == 0;
    } else {
      RunMeasure(front, c);
    }
  }

  /** Every run with 2k+1 rounds that finished and did not wait, k the stale Pods at the start,
      completes the rollout, whatever readiness the Pods show and however many rounds wait or are
      cut short in between. */
  lemma {:induction false} RolloutConverges(rounds: seq<Round>, c: Target)
    requires Run(rounds, c) && rounds != []
    requires Effective(rounds, c) >= 2 * |StaleKeys(rounds[0].live, c.expected)| + 1
    ensures Complete(End(rounds, c), c)
    ensures var live := End(rounds, c);
            (forall k :: k in live ==> live[k] == c.expected) && |live| == if c.replicas.Some? then c.replicas.value else 0
  {
    hide ValidRound, After, Waiting, Effective;
    RunMeasure(rounds, c);
    NoPlansLeft(End(rounds, c), c);
    assert forall k :: k in End(rounds, c) ==> k !in StaleKeys(End(rounds, c), c.expected);
  }

  lemma NoPlansLeft(live: Cluster, c: Target)
    ensures PlansLeft(live, c) == 0 <==> Complete(live, c)
  {
  }

  lemma {:induction false} AllReadyIsEffective(rounds: seq<Round>, c: Target)
    requires forall i, p :: 0 <= i < |rounds| && p in rounds[i].sorted ==> p.ready
    requires forall i :: 0 <= i < |rounds| ==> Finished(rounds[i], c)
    ensures Effective(rounds, c) == |rounds|
  {
    if rounds != [] {
      AllReadyIsEffective(rounds[..|rounds| - 1], c);
      AllReadyNeverWaits(rounds[|rounds| - 1].sorted, c);
    }
  }

  /** With every Pod ready before each plan, 2k+1 finished plans complete the rollout. */
  lemma {:induction false} ReadyRolloutConverges(rounds: seq<Round>, c: Target)
    requires Run(rounds, c)
    requires forall i, p :: 0 <= i < |rounds| && p in rounds[i].sorted ==> p.ready
    requires forall i :: 0 <= i < |rounds| ==> Finished(rounds[i], c)
    requires rounds != [] && |rounds| >= 2 * |StaleKeys(rounds[0].live, c.expected)| + 1
    ensures Complete(End(rounds, c), c)
  {
    AllReadyIsEffective(rounds, c);
    RolloutConverges(rounds, c);
  }

  lemma EmptyPlanChangesNothing(r: Round, c: Target)
    requires |r.names| == Created(r.sorted, c) == 0 && ToDelete(r.sorted, c) == [] && r.calls == 0
    ensures After(r, c) == r.live
  {
    hide ToDelete, Created, Kept;
    AfterAllCalls(r, c);
    assert Keys([]) == {};
    assert r.live - {} == r.live;
  }

  /** A complete rollout is a fixpoint: the plan is empty and the cluster stays as it is. */
  lemma CompleteIsFixpoint(r: Round, c: Target)
    requires ValidRound(r, c) && Complete(r.live, c)
    ensures ToDelete(r.sorted, c) == [] && Created(r.sorted, c) == 0 && After(r, c) == r.live
  {
    hide Lists, Describes, ToDelete, Created, After, Waiting;
    SortedDescribes(r, c);
    CountsOfCluster(r.sorted, r.live, c.expected);
    NoActionIff(r.sorted, c);
    EmptyPlanChangesNothing(r, c);
  }
}
