/** The operations of an endpoint group (internal/loadbalancer/group.go) are steps of the in-flight
    state machine: what `InFlight` and `Fallback` prove of its runs is about the group. */
module Refinement {
  import opened Wrappers
  import opened LoadBounds
  import opened Group
  import HashRing
  import InFlight

  ghost predicate OneToOne(ids: map<Counter, nat>) {
    forall c, d :: c in ids && d in ids && ids[c] == ids[d] ==> c == d
  }

  /** `ids` numbers the counters as `s` does, those of removed endpoints included. */
  ghost predicate Named(endpoints: map<string, Endpoint>, ids: map<Counter, nat>, s: InFlight.State) {
    && endpoints.Keys == s.endpoints.Keys && OneToOne(ids) && ids.Values == s.counters.Keys
    && (forall n :: n in endpoints ==> endpoints[n].inFlight in ids && ids[endpoints[n].inFlight] == s.endpoints[n])
  }

  ghost predicate CountersShown(ids: map<Counter, nat>, counters: map<nat, int>) reads ids.Keys {
    forall c :: c in ids ==> ids[c] in counters && counters[ids[c]] == c.value
  }

  /** `s` is the group as the state machine sees it. */
  ghost predicate Shows(g: EndpointGroup, ids: map<Counter, nat>, s: InFlight.State)
    reads g, ids.Keys
  {
    && g.totalInFlight == s.total && Named(g.endpoints, ids, s)
    && CountersShown(ids, s.counters)
  }

  lemma NewGroupShowsStart(g: EndpointGroup)
    requires g.endpoints == map[] && g.totalInFlight == 0
    ensures Shows(g, map[], InFlight.START)
  {
  }

  lemma SameLoads(g: EndpointGroup, ids: map<Counter, nat>, s: InFlight.State)
    requires Shows(g, ids, s)
    ensures InFlight.LiveLoads(s) == g.Loads() && |g.Loads()| == |g.endpoints| == |s.endpoints|
  {
    assert g.Loads().Keys == g.endpoints.Keys;
    assert |g.Loads()| == |g.Loads().Keys| && |g.endpoints| == |g.endpoints.Keys| && |s.endpoints| == |s.endpoints.Keys|;
  }

  /** The bound is met in the state exactly when the lookup of the group has an endpoint within it. */
  lemma SameBound(g: EndpointGroup, ids: map<Counter, nat>, s: InFlight.State, factor: real)
    requires Shows(g, ids, s)
    ensures InFlight.BoundMet(s, factor) <==> g.WithinLoad("", factor) != {}
  {
    SameLoads(g, ids, s);
    hide LoadOK;
    if g.WithinLoad("", factor) != {} {
      var n :| n in g.WithinLoad("", factor);
      assert n in s.endpoints;
    }
    if InFlight.BoundMet(s, factor) {
      var n :| n in s.endpoints && s.endpoints[n] in s.counters && LoadOK(s.counters[s.endpoints[n]], s.total, |s.endpoints|, factor);
      assert n in g.WithinLoad("", factor);
    }
  }

  /** A group that a run has led to does not fall back while the numbers leave room. */
  lemma GroupDoesNotFallBack(g: EndpointGroup, ids: map<Counter, nat>, actions: seq<InFlight.Action>, factor: real)
    requires InFlight.Run(InFlight.START, actions) && Shows(g, ids, InFlight.After(InFlight.START, actions))
    requires g.endpoints != map[]
    requires RoomLeft(InFlight.LiveSum(InFlight.After(InFlight.START, actions)), g.totalInFlight, |g.endpoints|, factor)
    ensures g.WithinLoad("", factor) != {}
  {
    var s := InFlight.After(InFlight.START, actions);
    SameLoads(g, ids, s);
    SameBound(g, ids, s, factor);
    assert |g.endpoints| > 0;
    hide InFlight.BoundMet, InFlight.LiveSum, RoomLeft;
    InFlight.BoundAlwaysMet(actions, factor);
  }

  // ----- leasing

  function ChoiceOf(strategy: Strategy): InFlight.Choice {
    if strategy.LeastLoad? then InFlight.Least else InFlight.Bounded(strategy.loadFactor)
  }

  lemma OneStep(from: InFlight.State, actions: seq<InFlight.Action>, a: InFlight.Action)
    requires InFlight.Run(from, actions) && InFlight.Enabled(InFlight.After(from, actions), a)
    ensures InFlight.Run(from, actions + [a])
    ensures InFlight.After(from, actions + [a]) == InFlight.Next(InFlight.After(from, actions), a)
  {
    assert (actions + [a])[..|actions|] == actions;
  }

  function AcquireSteps(t: nat, name: string): seq<InFlight.Action> {
    [InFlight.Arrive(t)] + [InFlight.Select(t, name)] + [InFlight.AddTotal(t)] + [InFlight.AddCounter(t)]
  }

  function ReleaseSteps(t: nat): seq<InFlight.Action> { [InFlight.SubTotal(t)] + [InFlight.SubCounter(t)] }

  /** One more lease by request `t` on counter `c`. */
  function Leased(s: InFlight.State, t: nat, c: nat): InFlight.State
    requires c in s.counters
  {
    s.(counters := s.counters[c := s.counters[c] + 1], total := s.total + 1, phases := s.phases[t := InFlight.Holding(c)])
  }

  lemma AcquireRuns(s: InFlight.State, t: nat, name: string)
    requires t !in s.phases && name in s.endpoints && s.endpoints[name] in s.counters
    ensures InFlight.Run(s, AcquireSteps(t, name))
    ensures InFlight.After(s, AcquireSteps(t, name)) == Leased(s, t, s.endpoints[name])
  {
    var c := s.endpoints[name];
    assert InFlight.Run(s, []) && InFlight.After(s, []) == s;
    hide InFlight.Run, InFlight.After;
    OneStep(s, [], InFlight.Arrive(t));
    assert [] + [InFlight.Arrive(t)] == [InFlight.Arrive(t)];
    OneStep(s, [InFlight.Arrive(t)], InFlight.Select(t, name));
    OneStep(s, [InFlight.Arrive(t)] + [InFlight.Select(t, name)], InFlight.AddTotal(t));
    OneStep(s, [InFlight.Arrive(t)] + [InFlight.Select(t, name)] + [InFlight.AddTotal(t)], InFlight.AddCounter(t));
    assert s.phases[t := InFlight.Arrived][t := InFlight.Selected(c)][t := InFlight.Counted(c)][t := InFlight.Holding(c)]
      == s.phases[t := InFlight.Holding(c)];
  }

  lemma ReleaseRuns(s: InFlight.State, t: nat, c: nat)
    requires t in s.phases && s.phases[t] == InFlight.Holding(c) && c in s.counters
    ensures InFlight.Run(s, ReleaseSteps(t))
    ensures InFlight.After(s, ReleaseSteps(t)) ==
            s.(counters := s.counters[c := s.counters[c] - 1], total := s.total - 1, phases := s.phases[t := InFlight.Done])
  {
    assert InFlight.Run(s, []) && InFlight.After(s, []) == s;
    hide InFlight.Run, InFlight.After;
    OneStep(s, [], InFlight.SubTotal(t));
    assert [] + [InFlight.SubTotal(t)] == [InFlight.SubTotal(t)];
    OneStep(s, [InFlight.SubTotal(t)], InFlight.SubCounter(t));
    assert s.phases[t := InFlight.Releasing(c)][t := InFlight.Done] == s.phases[t := InFlight.Done];
  }

  /** The pick of the group is a pick of the state machine. */
  lemma SamePick(s: InFlight.State, strategy: Strategy, name: string)
    requires Chooses(strategy, InFlight.LiveLoads(s), s.total, name)
    ensures InFlight.Picks(ChoiceOf(strategy), s, name)
  {
  }

  /** Leasing is the four steps of an acquire, and without an adapter the selection among them is
      one the strategy makes. */
  method Lease(g: EndpointGroup, strategy: Strategy, adapter: string, ghost ids: map<Counter, nat>, ghost s: InFlight.State, ghost t: nat)
    returns (r: Option<Group.Lease>, ghost name: string)
    requires g.Valid() && g.Canonical() && Shows(g, ids, s) && t !in s.phases
    modifies g`totalInFlight, g.Counters()
    ensures r.None? ==> Shows(g, ids, s)
    ensures r.Some? ==>
              && r.value.inFlight in ids && InFlight.Run(s, AcquireSteps(t, name))
              && Shows(g, ids, InFlight.After(s, AcquireSteps(t, name)))
              && InFlight.After(s, AcquireSteps(t, name)) == Leased(s, t, ids[r.value.inFlight])
    ensures r.Some? && adapter == "" ==> InFlight.Picks(ChoiceOf(strategy), s, name)
  {
    hide *;
    ghost var values, counters := Values(ids), g.Counters();
    ShownParts(g, ids, s);
    SameLoads(g, ids, s);
    r, name := g.LeaseBestAddr(strategy, adapter);
    if r.Some? {
      ServingIsThere(g, adapter, name);
      AcquireRuns(s, t, name);
      forall c | c in ids ensures c.value == values[c] + if c == r.value.inFlight then 1 else 0 {
        if c in counters { assert c.value == old(c.value) + if c == r.value.inFlight then 1 else 0; }
      }
      if adapter == "" { SamePick(s, strategy, name); }
      OneLeaseShown(g, ids, values, s, t, r.value.inFlight);
    } else {
      NothingChanged(g, ids, values, s);
    }
  }

  lemma NamedCounters(endpoints: map<string, Endpoint>, ids: map<Counter, nat>, s: InFlight.State)
    requires Named(endpoints, ids, s)
    ensures endpoints.Keys == s.endpoints.Keys && OneToOne(ids) && ids.Values == s.counters.Keys
    ensures forall n :: n in endpoints ==>
              && endpoints[n].inFlight in ids && ids[endpoints[n].inFlight] == s.endpoints[n]
              && s.endpoints[n] in s.counters
  {
    forall n | n in endpoints ensures s.endpoints[n] in s.counters { assert ids[endpoints[n].inFlight] in ids.Values; }
  }

  /** The values of the counters, as they are now. */
  ghost function Values(ids: map<Counter, nat>): map<Counter, int> reads ids.Keys { map c | c in ids :: c.value }

  lemma ShownParts(g: EndpointGroup, ids: map<Counter, nat>, s: InFlight.State)
    requires Shows(g, ids, s)
    ensures g.totalInFlight == s.total && Named(g.endpoints, ids, s)
    ensures Reading(ids, Values(ids), s.counters) && forall c :: c in ids ==> c in Values(ids) && c.value == Values(ids)[c]
    ensures forall n :: n in g.endpoints ==>
              && n in s.endpoints && g.endpoints[n].inFlight in ids && ids[g.endpoints[n].inFlight] == s.endpoints[n]
              && s.endpoints[n] in s.counters && g.endpoints[n].inFlight in g.Counters()
  {
    NamedCounters(g.endpoints, ids, s);
  }

  /** `counters` reads as `values` do. */
  ghost predicate Reading(ids: map<Counter, nat>, values: map<Counter, int>, counters: map<nat, int>) {
    values.Keys == ids.Keys && forall c :: c in ids ==> ids[c] in counters && counters[ids[c]] == values[c]
  }

  lemma OneLeaseShown(g: EndpointGroup, ids: map<Counter, nat>, values: map<Counter, int>, s: InFlight.State, t: nat, leased: Counter)
    requires Named(g.endpoints, ids, s) && leased in ids && Reading(ids, values, s.counters)
    requires g.totalInFlight == s.total + 1
    requires forall c :: c in ids ==> c.value == values[c] + if c == leased then 1 else 0
    ensures ids[leased] in s.counters && Shows(g, ids, Leased(s, t, ids[leased]))
  {
  }

  lemma ServingIsThere(g: EndpointGroup, adapter: string, name: string)
    requires name in g.Serving(adapter)
    ensures name in g.endpoints
  {
  }

  lemma NothingChanged(g: EndpointGroup, ids: map<Counter, nat>, values: map<Counter, int>, s: InFlight.State)
    requires Named(g.endpoints, ids, s) && Reading(ids, values, s.counters) && g.totalInFlight == s.total
    requires forall c :: c in ids ==> c.value == values[c]
    ensures Shows(g, ids, s)
  {
  }

  /** Releasing is the two steps of a release, whether the endpoint is still there or not. */
  method Release(g: EndpointGroup, lease: Group.Lease, ghost ids: map<Counter, nat>, ghost s: InFlight.State, ghost t: nat)
    requires Shows(g, ids, s) && lease.inFlight in ids
    requires t in s.phases && s.phases[t] == InFlight.Holding(ids[lease.inFlight])
    modifies g`totalInFlight, lease.inFlight
    ensures InFlight.Run(s, ReleaseSteps(t)) && Shows(g, ids, InFlight.After(s, ReleaseSteps(t)))
  {
    hide InFlight.Run, InFlight.After;
    ReleaseRuns(s, t, ids[lease.inFlight]);
    g.Release(lease);
  }

  // ----- reconciling

  /** Numbers of their own for some names, none of them used. */
  ghost predicate Numbers(num: map<string, nat>, names: set<string>, used: set<nat>) {
    && num.Keys == names
    && (forall n :: n in num ==> num[n] !in used)
    && (forall m, n :: m in num && n in num && num[m] == num[n] ==> m == n)
  }

  lemma {:induction false} UpperBound(used: set<nat>) returns (b: nat)
    ensures forall k :: k in used ==> k < b
  {
    if used == {} {
      b := 0;
    } else {
      var k :| k in used;
      b := UpperBound(used - {k});
      b := if b <= k then k + 1 else b;
      assert forall j :: j in used ==> j == k || j in used - {k};
    }
  }

  lemma {:induction false} FreshNumbers(names: set<string>, used: set<nat>) returns (num: map<string, nat>)
    ensures Numbers(num, names, used) && num.Keys == names
  {
    if names == {} {
      num := map[];
    } else {
      var n :| n in names;
      num := FreshNumbers(names - {n}, used);
      var b := UpperBound(used + num.Values);
      assert forall m :: m in num ==> num[m] in num.Values;
      num := num[n := b];
    }
  }

  /** The counter each observed name has afterwards. */
  ghost function Observation(s: InFlight.State, names: set<string>, num: map<string, nat>): map<string, nat>
    requires names <= s.endpoints.Keys + num.Keys
  {
    map n | n in names :: if n in s.endpoints then s.endpoints[n] else num[n]
  }

  lemma ReconcileEnabled(s: InFlight.State, names: set<string>, num: map<string, nat>)
    requires Numbers(num, names - s.endpoints.Keys, s.counters.Keys)
    requires forall t :: t in s.phases ==> !InFlight.Locked(s.phases[t])
    requires forall n :: n in s.endpoints ==> s.endpoints[n] in s.counters
    requires forall m, n :: m in s.endpoints && n in s.endpoints && s.endpoints[m] == s.endpoints[n] ==> m == n
    ensures InFlight.Enabled(s, InFlight.Reconcile(Observation(s, names, num)))
  {
  }

  /** The numbering with the counters of the new names. */
  ghost function Grown(ids: map<Counter, nat>, now: map<string, Endpoint>, num: map<string, nat>): map<Counter, nat> {
    map c | c in ids.Keys + (set n | n in num && n in now :: now[n].inFlight) ::
      if c in ids then ids[c] else if c.owner in num then num[c.owner] else 0
  }

  ghost predicate NewNames(ids: map<Counter, nat>, now: map<string, Endpoint>, num: map<string, nat>) {
    forall n :: n in num ==> n in now && now[n].inFlight !in ids && now[n].inFlight.owner == n
  }

  lemma GrownValues(ids: map<Counter, nat>, now: map<string, Endpoint>, num: map<string, nat>)
    requires NewNames(ids, now, num)
    ensures Grown(ids, now, num).Values == ids.Values + num.Values
    ensures forall c :: c in ids ==> c in Grown(ids, now, num) && Grown(ids, now, num)[c] == ids[c]
    ensures forall n :: n in num ==> now[n].inFlight in Grown(ids, now, num) && Grown(ids, now, num)[now[n].inFlight] == num[n]
    ensures forall c :: c in Grown(ids, now, num) && c !in ids ==>
              c.owner in num && c == now[c.owner].inFlight && Grown(ids, now, num)[c] == num[c.owner]
  {
    var ids' := Grown(ids, now, num);
    forall v | v in ids.Values ensures v in ids'.Values { var c :| c in ids && ids[c] == v; assert ids'[c] == v; }
    forall v | v in num.Values ensures v in ids'.Values {
      var n :| n in num && num[n] == v;
      assert ids'[now[n].inFlight] == v;
    }
    forall v | v in ids'.Values ensures v in ids.Values || v in num.Values {
      var c :| c in ids' && ids'[c] == v;
      if c in ids { assert ids[c] in ids.Values; } else { assert num[c.owner] in num.Values; }
    }
  }

  lemma GrownOneToOne(ids: map<Counter, nat>, now: map<string, Endpoint>, num: map<string, nat>, names: set<string>)
    requires NewNames(ids, now, num) && OneToOne(ids) && Numbers(num, names, ids.Values)
    ensures OneToOne(Grown(ids, now, num))
  {
    GrownValues(ids, now, num);
    var ids' := Grown(ids, now, num);
    hide Grown;
    forall c, d | c in ids' && d in ids' && ids'[c] == ids'[d] ensures c == d {
      assert c in ids ==> ids[c] in ids.Values;
      assert d in ids ==> ids[d] in ids.Values;
    }
  }

  /** The counters after a step that reconciles: the old ones as they were, the new ones at zero. */
  lemma CountersAfter(s: InFlight.State, names: set<string>, num: map<string, nat>)
    requires Numbers(num, names - s.endpoints.Keys, s.counters.Keys) && num.Keys <= names
    requires forall n :: n in s.endpoints ==> s.endpoints[n] in s.counters
    requires InFlight.Enabled(s, InFlight.Reconcile(Observation(s, names, num)))
    ensures var s' := InFlight.Next(s, InFlight.Reconcile(Observation(s, names, num)));
            && s'.endpoints == Observation(s, names, num) && s'.total == s.total
            && s'.counters.Keys == s.counters.Keys + num.Values
            && (forall k :: k in s.counters ==> s'.counters[k] == s.counters[k])
            && (forall k :: k in num.Values ==> s'.counters[k] == 0)
  {
    var o := Observation(s, names, num);
    forall k | k in num.Values ensures k in o.Values && k !in s.counters {
      var n :| n in num && num[n] == k;
      assert o[n] == k;
    }
    forall k | k in o.Values && k !in s.counters ensures k in num.Values {
      var n :| n in o && o[n] == k;
      assert num[n] == k;
    }
    assert InFlight.NewCounters(s, o).Keys == num.Values;
  }

  lemma GrownNamed(was: map<string, Endpoint>, now: map<string, Endpoint>, observed: map<string, Observed>,
                   ids: map<Counter, nat>, s: InFlight.State, s': InFlight.State, num: map<string, nat>)
    requires Named(was, ids, s) && now.Keys == observed.Keys && EndpointGroup.Updated(observed, was, now, {})
    requires NewNames(ids, now, num) && Numbers(num, observed.Keys - was.Keys, s.counters.Keys)
    requires s'.endpoints == Observation(s, observed.Keys, num) && s'.counters.Keys == s.counters.Keys + num.Values
    ensures Named(now, Grown(ids, now, num), s')
  {
    assert num.Keys == observed.Keys - was.Keys;
    NamedCounters(was, ids, s);
    assert s'.endpoints.Keys == observed.Keys;
    hide *;
    GrownOneToOne(ids, now, num, observed.Keys - was.Keys);
    GrownValues(ids, now, num);
    NamedAfter(was, now, observed, ids, s, num);
    NamedParts(now, Grown(ids, now, num), s');
  }

  lemma NamedParts(endpoints: map<string, Endpoint>, ids: map<Counter, nat>, s: InFlight.State)
    requires endpoints.Keys == s.endpoints.Keys && OneToOne(ids) && ids.Values == s.counters.Keys
    requires forall n :: n in endpoints ==>
               n in s.endpoints && endpoints[n].inFlight in ids && ids[endpoints[n].inFlight] == s.endpoints[n]
    ensures Named(endpoints, ids, s)
  {
  }

  lemma NamedAfter(was: map<string, Endpoint>, now: map<string, Endpoint>, observed: map<string, Observed>,
                   ids: map<Counter, nat>, s: InFlight.State, num: map<string, nat>)
    requires was.Keys == s.endpoints.Keys && now.Keys == observed.Keys && EndpointGroup.Updated(observed, was, now, {})
    requires forall n :: n in was ==> was[n].inFlight in ids && ids[was[n].inFlight] == s.endpoints[n]
    requires NewNames(ids, now, num) && num.Keys == observed.Keys - was.Keys
    ensures var ids', o := Grown(ids, now, num), Observation(s, observed.Keys, num);
            forall n :: n in now ==> n in o && now[n].inFlight in ids' && ids'[now[n].inFlight] == o[n]
  {
    GrownValues(ids, now, num);
    hide Grown;
    forall n | n in now
      ensures now[n].inFlight in Grown(ids, now, num)
              && Grown(ids, now, num)[now[n].inFlight] == Observation(s, observed.Keys, num)[n]
    {
      if n in was { assert now[n].inFlight == was[n].inFlight; } else { assert n in num; }
    }
  }

  lemma GrownCounters(now: map<string, Endpoint>, ids: map<Counter, nat>, num: map<string, nat>, before: map<nat, int>, after: map<nat, int>)
    requires NewNames(ids, now, num) && CountersShown(ids, before) && after.Keys == before.Keys + num.Values
    requires forall n :: n in num ==> now[n].inFlight.value == 0
    requires (forall k :: k in before ==> after[k] == before[k]) && (forall k :: k in num.Values ==> after[k] == 0)
    ensures CountersShown(Grown(ids, now, num), after)
  {
    GrownValues(ids, now, num);
    var ids' := Grown(ids, now, num);
    hide Grown;
    forall c | c in ids' ensures ids'[c] in after && after[ids'[c]] == c.value {
      if c !in ids { assert num[c.owner] in num.Values; }
    }
  }

  /** Reconciling is one step, while no request holds the read lock. */
  method Reconcile(g: EndpointGroup, observed: map<string, Observed>, ghost ids: map<Counter, nat>, ghost s: InFlight.State)
    returns (ghost ids': map<Counter, nat>, ghost step: InFlight.Action)
    requires g.Valid() && Shows(g, ids, s)
    requires forall t :: t in s.phases ==> !InFlight.Locked(s.phases[t])
    modifies g`endpoints, g`chwblHashes, g`chwblSortedHashes
    ensures g.Valid() && g.endpoints.Keys == observed.Keys
    ensures InFlight.Enabled(s, step) && Shows(g, ids', InFlight.Next(s, step))
    ensures forall c :: c in ids ==> c in ids' && ids'[c] == ids[c]
  {
    hide *;
    ghost var was, values := g.endpoints, Values(ids);
    ShownParts(g, ids, s);
    OwnCounters(g, ids, s);
    ghost var num := FreshNumbers(observed.Keys - s.endpoints.Keys, s.counters.Keys);
    ReconcileEnabled(s, observed.Keys, num);
    CountersAfter(s, observed.Keys, num);
    step := InFlight.Reconcile(Observation(s, observed.Keys, num));
    ghost var s' := InFlight.Next(s, step);
    g.ReconcileEndpoints(observed);
    ids' := Grown(ids, g.endpoints, num);
    TheyAreNew(g, ids, num);
    GrownValues(ids, g.endpoints, num);
    GrownNamed(was, g.endpoints, observed, ids, s, s', num);
    StillShown(ids, values, s.counters);
    GrownCounters(g.endpoints, ids, num, s.counters, s'.counters);
    ShownWhen(g, ids', s');
  }

  lemma TheyAreNew(g: EndpointGroup, ids: map<Counter, nat>, num: map<string, nat>)
    requires g.Valid() && forall n :: n in num ==> n in g.endpoints && g.endpoints[n].inFlight !in ids
    ensures NewNames(ids, g.endpoints, num)
  {
  }

  lemma StillShown(ids: map<Counter, nat>, values: map<Counter, int>, counters: map<nat, int>)
    requires Reading(ids, values, counters) && forall c :: c in ids ==> c.value == values[c]
    ensures CountersShown(ids, counters)
  {
  }

  lemma ShownWhen(g: EndpointGroup, ids: map<Counter, nat>, s: InFlight.State)
    requires g.totalInFlight == s.total && Named(g.endpoints, ids, s) && CountersShown(ids, s.counters)
    ensures Shows(g, ids, s)
  {
  }

  lemma OwnCounters(g: EndpointGroup, ids: map<Counter, nat>, s: InFlight.State)
    requires g.Valid() && Shows(g, ids, s)
    ensures forall n :: n in s.endpoints ==> s.endpoints[n] in s.counters
    ensures forall m, n :: m in s.endpoints && n in s.endpoints && s.endpoints[m] == s.endpoints[n] ==> m == n
    ensures g.endpoints.Keys == s.endpoints.Keys
  {
  }
}
