/** In-flight counting under interleaving (internal/loadbalancer/group.go).

    Every atomic addition is a step of its own.  Selection holds the read lock until both
    additions of the acquire are done, so reconciling excludes it; releases take no lock. */
module InFlight {
  import opened LoadBounds

  /** The life of one request.  The number names the counter it leases. */
  datatype Phase =
    | Arrived
    | Selected(counter: nat)   // read lock held
    | Counted(counter: nat)    // total incremented, read lock held
    | Holding(counter: nat)
    | Releasing(counter: nat)  // total decremented
    | Done

  /** Counters live on after their endpoint is removed: leases still refer to them. */
  datatype State = State(endpoints: map<string, nat>, counters: map<nat, int>, total: int, phases: map<nat, Phase>)

  datatype Action =
    | Arrive(request: nat)
    | Select(request: nat, name: string)
    | AddTotal(request: nat)
    | AddCounter(request: nat)
    | SubTotal(request: nat)
    | SubCounter(request: nat)
    | Reconcile(observed: map<string, nat>)  // the counter each observed name has afterwards

  const START := State(map[], map[], 0, map[])

  predicate Locked(p: Phase) { p.Selected? || p.Counted? }

  predicate At(s: State, t: nat, p: Phase) { t in s.phases && s.phases[t] == p }

  /** A retained name keeps its counter; each new name gets a counter never used before. */
  ghost predicate Assigns(s: State, observed: map<string, nat>) {
    && (forall n :: n in observed && n in s.endpoints ==> observed[n] == s.endpoints[n])
    && (forall n :: n in observed && n !in s.endpoints ==> observed[n] !in s.counters)
    && (forall m, n :: m in observed && n in observed && m != n ==> observed[m] != observed[n])
  }

  ghost predicate Enabled(s: State, a: Action) {
    match a
    case Arrive(t) => t !in s.phases
    case Select(t, name) => At(s, t, Arrived) && name in s.endpoints
    case AddTotal(t) => t in s.phases && s.phases[t].Selected?
    case AddCounter(t) => t in s.phases && s.phases[t].Counted? && s.phases[t].counter in s.counters
    case SubTotal(t) => t in s.phases && s.phases[t].Holding?
    case SubCounter(t) => t in s.phases && s.phases[t].Releasing? && s.phases[t].counter in s.counters
    case Reconcile(observed) => (forall t :: t in s.phases ==> !Locked(s.phases[t])) && Assigns(s, observed)
  }

  function NewCounters(s: State, observed: map<string, nat>): map<nat, int> {
    map c | c in observed.Values && c !in s.counters :: 0
  }

  ghost function Next(s: State, a: Action): State
    requires Enabled(s, a)
  {
    match a
    case Arrive(t) => s.(phases := s.phases[t := Arrived])
    case Select(t, name) => s.(phases := s.phases[t := Selected(s.endpoints[name])])
    case AddTotal(t) => s.(total := s.total + 1, phases := s.phases[t := Counted(s.phases[t].counter)])
    case AddCounter(t) =>
      var c := s.phases[t].counter;
      s.(counters := s.counters[c := s.counters[c] + 1], phases := s.phases[t := Holding(c)])
    case SubTotal(t) => s.(total := s.total - 1, phases := s.phases[t := Releasing(s.phases[t].counter)])
    case SubCounter(t) =>
      var c := s.phases[t].counter;
      s.(counters := s.counters[c := s.counters[c] - 1], phases := s.phases[t := Done])
    case Reconcile(observed) => s.(endpoints := observed, counters := s.counters + NewCounters(s, observed))
  }

  // ----- counting requests by phase

  datatype Kind = Users(counter: nat) | Leased | HalfAcquired | HalfReleased

  predicate Is(k: Kind, p: Phase) {
    match k
    case Users(c) => p == Holding(c) || p == Releasing(c)
    case Leased => p.Counted? || p.Holding?
    case HalfAcquired => p.Counted?
    case HalfReleased => p.Releasing?
  }

  function Requests(phases: map<nat, Phase>, k: Kind): set<nat> { set t | t in phases && Is(k, phases[t]) }

  function Number(phases: map<nat, Phase>, k: Kind): nat { |Requests(phases, k)| }

  lemma NumberUpdate(phases: map<nat, Phase>, t: nat, p: Phase, k: Kind)
    ensures Number(phases[t := p], k) ==
            Number(phases, k) + (if Is(k, p) then 1 else 0) - (if t in phases && Is(k, phases[t]) then 1 else 0)
  {
    var before, after := Requests(phases, k), Requests(phases[t := p], k);
    assert before - {t} == after - {t};
    assert |before - {t}| == |before| - if t in before then 1 else 0;
    assert |after - {t}| == |after| - if t in after then 1 else 0;
  }

  // ----- the invariant

  ghost predicate CountersAgree(s: State) {
    forall c :: c in s.counters ==> s.counters[c] == Number(s.phases, Users(c))
  }

  ghost predicate Conserved(s: State) {
    && s.total == Number(s.phases, Leased)
    && s.total == Sum(s.counters) + Number(s.phases, HalfAcquired) - Number(s.phases, HalfReleased)
  }

  predicate Names(p: Phase, c: nat) { !p.Arrived? && !p.Done? && p.counter == c }

  ghost predicate WellFormed(s: State) {
    && (forall t :: t in s.phases && !s.phases[t].Arrived? && !s.phases[t].Done? ==> s.phases[t].counter in s.counters)
    && (forall t :: t in s.phases && Locked(s.phases[t]) ==> s.phases[t].counter in s.endpoints.Values)
    && (forall n :: n in s.endpoints ==> s.endpoints[n] in s.counters)
    && (forall m, n :: m in s.endpoints && n in s.endpoints && m != n ==> s.endpoints[m] != s.endpoints[n])
  }

  ghost predicate Inv(s: State) { WellFormed(s) && CountersAgree(s) && Conserved(s) }

  lemma StartInv()
    ensures Inv(START)
  {
    assert forall k :: Requests(map[], k) == {};
    assert Sum<nat>(map[]) == 0;
  }

  lemma {:induction false} SumWithZeros(m: map<nat, int>, zeros: map<nat, int>)
    requires forall c :: c in zeros ==> c !in m && zeros[c] == 0
    ensures Sum(m + zeros) == Sum(m)
    decreases zeros.Keys
  {
    if zeros == map[] {
      assert m + zeros == m;
    } else {
      var c :| c in zeros;
      var fewer := zeros - {c};
      assert fewer.Keys == zeros.Keys - {c};
      SumWithZeros(m, fewer);
      SumUpdate(m + fewer, c, 0);
      AddBack(m, zeros, c);
    }
  }

  lemma AddBack(m: map<nat, int>, n: map<nat, int>, c: nat)
    requires c in n
    ensures (m + (n - {c}))[c := n[c]] == m + n
  {
  }

  /** A counter nobody leases has no users. */
  lemma NoUsers(s: State, c: nat)
    requires WellFormed(s) && c !in s.counters
    ensures Number(s.phases, Users(c)) == 0
  {
    assert Requests(s.phases, Users(c)) == {};
  }

  lemma WellFormedStep(s: State, a: Action)
    requires WellFormed(s) && Enabled(s, a)
    ensures WellFormed(Next(s, a))
  {
    if a.Reconcile? {
      forall n | n in a.observed ensures a.observed[n] in Next(s, a).counters {
        assert a.observed[n] in a.observed.Values;
      }
    }
  }

  lemma CountersStep(s: State, a: Action)
    requires WellFormed(s) && CountersAgree(s) && Enabled(s, a)
    ensures CountersAgree(Next(s, a))
  {
    var s' := Next(s, a);
    forall c | c in s'.counters ensures s'.counters[c] == Number(s'.phases, Users(c)) {
      if a.Reconcile? {
        if c !in s.counters { NoUsers(s, c); }
      } else {
        NumberUpdate(s.phases, a.request, s'.phases[a.request], Users(c));
      }
    }
  }

  lemma ConservedStep(s: State, a: Action)
    requires WellFormed(s) && Conserved(s) && Enabled(s, a)
    ensures Conserved(Next(s, a))
  {
    var s' := Next(s, a);
    if a.Reconcile? {
      SumWithZeros(s.counters, NewCounters(s, a.observed));
    } else {
      NumberUpdate(s.phases, a.request, s'.phases[a.request], Leased);
      NumberUpdate(s.phases, a.request, s'.phases[a.request], HalfAcquired);
      NumberUpdate(s.phases, a.request, s'.phases[a.request], HalfReleased);
      if a.AddCounter? || a.SubCounter? {
        var c := s.phases[a.request].counter;
        SumUpdate(s.counters, c, s'.counters[c]);
      }
    }
  }

  // ----- every interleaving

  ghost predicate Run(from: State, actions: seq<Action>)
    decreases |actions|, 0
  {
    actions != [] ==>
      var front, a := actions[..|actions| - 1], actions[|actions| - 1];
      Run(from, front) && Enabled(After(from, front), a)
  }

  ghost function After(from: State, actions: seq<Action>): State
    requires Run(from, actions)
    decreases |actions|, 1
  {
    if actions == [] then from
    else Next(After(from, actions[..|actions| - 1]), actions[|actions| - 1])
  }

  lemma {:induction false} InvAlways(from: State, actions: seq<Action>)
    requires Inv(from) && Run(from, actions)
    ensures Inv(After(from, actions))
  {
    if actions != [] {
      var front, a := actions[..|actions| - 1], actions[|actions| - 1];
      InvAlways(from, front);
      hide WellFormed, CountersAgree, Conserved, Enabled, Next;
      var s := After(from, front);
      WellFormedStep(s, a);
      CountersStep(s, a);
      ConservedStep(s, a);
    }
  }

  /** In every reachable state the total is the sum of all counters, live and removed, plus the
      half-done acquires, minus the half-done releases; nothing is ever negative. */
  lemma InFlightConserved(actions: seq<Action>)
    requires Run(START, actions)
    ensures var s := After(START, actions);
            && s.total == Sum(s.counters) + Number(s.phases, HalfAcquired) - Number(s.phases, HalfReleased)
            && s.total >= 0
            && (forall c :: c in s.counters ==> s.counters[c] >= 0)
  {
    StartInv();
    InvAlways(START, actions);
  }

  /** With no request under way every counter is zero, and so is the total. */
  lemma QuiescentIsZero(actions: seq<Action>)
    requires Run(START, actions)
    requires var s := After(START, actions); forall t :: t in s.phases ==> s.phases[t].Arrived? || s.phases[t].Done?
    ensures var s := After(START, actions); s.total == 0 && forall c :: c in s.counters ==> s.counters[c] == 0
  {
    StartInv();
    InvAlways(START, actions);
    var s := After(START, actions);
    forall k ensures Number(s.phases, k) == 0 { assert Requests(s.phases, k) == {}; }
  }

  // ----- a fresh counter is never touched by old leases

  /** A request that has selected keeps its counter, and a finished one stays finished. */
  lemma {:induction false} LeaseIsStable(from: State, actions: seq<Action>, t: nat)
    requires Run(from, actions) && t in from.phases && !from.phases[t].Arrived?
    ensures var s := After(from, actions);
            t in s.phases && (s.phases[t].Done? || Names(s.phases[t], if from.phases[t].Done? then 0 else from.phases[t].counter))
    ensures from.phases[t].Done? ==> After(from, actions).phases[t].Done?
  {
    if actions != [] {
      LeaseIsStable(from, actions[..|actions| - 1], t);
    }
  }

  /** When a name is added, in whatever state and after whatever removals, only requests that
      select later ever use the counter it gets. */
  lemma FreshCounterIsUntouched(before: seq<Action>, observed: map<string, nat>, later: seq<Action>, name: string, t: nat)
    requires Run(START, before) && Enabled(After(START, before), Reconcile(observed))
    requires var s := After(START, before); name in observed && name !in s.endpoints
    requires var s := Next(After(START, before), Reconcile(observed));
             Run(s, later) && t in After(s, later).phases && Names(After(s, later).phases[t], observed[name])
    ensures var s := After(START, before); t in s.phases ==> s.phases[t].Arrived?
  {
    StartInv();
    InvAlways(START, before);
    var s := After(START, before);
    var s' := Next(s, Reconcile(observed));
    if t in s.phases && !s.phases[t].Arrived? {
      LeaseIsStable(s', later, t);
    }
  }

  // ----- the load bound, with leases on removed endpoints and half-done updates

  ghost function LiveLoads(s: State): map<string, int> {
    map n | n in s.endpoints && s.endpoints[n] in s.counters :: s.counters[s.endpoints[n]]
  }

  /** How a request without adapter chooses: by least load, or by bounded load at a factor. */
  datatype Choice = Least | Bounded(factor: real)

  ghost predicate Picks(choice: Choice, s: State, name: string) {
    match choice
    case Least => LeastPick(LiveLoads(s), name)
    case Bounded(factor) => |LiveLoads(s)| > 0 && BoundedPick(LiveLoads(s), s.total, factor, name)
  }

  /** A run in which every selection is one the strategy makes. */
  ghost predicate RunBy(choice: Choice, actions: seq<Action>)
    decreases |actions|
  {
    && Run(START, actions)
    && (actions != [] ==>
          var front, a := actions[..|actions| - 1], actions[|actions| - 1];
          RunBy(choice, front) && (a.Select? ==> Picks(choice, After(START, front), a.name)))
  }

  /** Counters whose endpoint is gone. */
  function RemovedCounters(s: State): map<nat, int> { s.counters - s.endpoints.Values }

  lemma {:induction false} SumOfLive(endpoints: map<string, nat>, counters: map<nat, int>)
    requires forall n :: n in endpoints ==> endpoints[n] in counters
    requires forall m, n :: m in endpoints && n in endpoints && m != n ==> endpoints[m] != endpoints[n]
    ensures Sum(map n | n in endpoints :: counters[endpoints[n]]) + Sum(counters - endpoints.Values) == Sum(counters)
    decreases endpoints.Keys
  {
    var loads := map n | n in endpoints :: counters[endpoints[n]];
    if endpoints == map[] {
      assert counters - endpoints.Values == counters;
    } else {
      var n :| n in endpoints;
      var rest, c := endpoints - {n}, endpoints[n];
      assert rest.Keys == endpoints.Keys - {n};
      SumOfLive(rest, counters);
      SumWithout(loads, n);
      LoadsLess(endpoints, counters, n);
      OneValueLess(endpoints, n);
      SumWithout(counters - rest.Values, c);
      DropMore(counters, rest.Values, c);
    }
  }

  lemma LoadsLess(endpoints: map<string, nat>, counters: map<nat, int>, n: string)
    requires n in endpoints && forall m :: m in endpoints ==> endpoints[m] in counters
    ensures (map m | m in endpoints :: counters[endpoints[m]]) - {n} == map m | m in endpoints - {n} :: counters[(endpoints - {n})[m]]
  {
  }

  lemma DropMore(m: map<nat, int>, gone: set<nat>, c: nat)
    ensures m - gone - {c} == m - (gone + {c})
  {
  }

  lemma OneValueLess(endpoints: map<string, nat>, n: string)
    requires n in endpoints
    requires forall m, n :: m in endpoints && n in endpoints && m != n ==> endpoints[m] != endpoints[n]
    ensures endpoints[n] !in (endpoints - {n}).Values && endpoints.Values == (endpoints - {n}).Values + {endpoints[n]}
  {
    var rest := endpoints - {n};
    forall v | v in endpoints.Values ensures v in rest.Values || v == endpoints[n] {
      var m :| m in endpoints && endpoints[m] == v;
      if m != n { assert rest[m] == v; }
    }
    forall v | v in rest.Values ensures v in endpoints.Values && v != endpoints[n] {
      var m :| m in rest && rest[m] == v;
      assert endpoints[m] == v;
    }
    assert endpoints[n] in endpoints.Values;
  }

  /** Some live endpoint passes the load test. */
  ghost predicate BoundMet(s: State, factor: real) {
    |s.endpoints| > 0 && exists n :: n in s.endpoints && s.endpoints[n] in s.counters
                                     && LoadOK(s.counters[s.endpoints[n]], s.total, |s.endpoints|, factor)
  }

  /** What the live endpoints carry, from the numbers alone. */
  ghost function LiveSum(s: State): int {
    s.total + Number(s.phases, HalfReleased) - Number(s.phases, HalfAcquired) - Sum(RemovedCounters(s))
  }

  lemma BoundMetNow(s: State, factor: real)
    requires Inv(s) && |s.endpoints| > 0 && RoomLeft(LiveSum(s), s.total, |s.endpoints|, factor)
    ensures BoundMet(s, factor)
  {
    LiveLoadsSum(s);
    hide *;
    SomeEndpointPasses(LiveLoads(s), s.total, factor);
    OnePasses(s, factor);
  }

  lemma LiveLoadsSum(s: State)
    requires Inv(s)
    ensures Sum(LiveLoads(s)) == LiveSum(s) && |LiveLoads(s)| == |s.endpoints|
  {
    hide Number, CountersAgree;
    var loads := LiveLoads(s);
    assert loads == map n | n in s.endpoints :: s.counters[s.endpoints[n]];
    hide LiveLoads;
    SumOfLive(s.endpoints, s.counters);
    assert loads.Keys == s.endpoints.Keys;
    assert |loads| == |loads.Keys| && |s.endpoints| == |s.endpoints.Keys|;
  }

  lemma OnePasses(s: State, factor: real)
    requires WellFormed(s) && |LiveLoads(s)| == |s.endpoints| > 0 && SomePasses(LiveLoads(s), s.total, factor)
    ensures BoundMet(s, factor)
  {
    hide LoadOK;
    var loads := LiveLoads(s);
    var n :| n in loads && LoadOK(loads[n], s.total, |loads|, factor);
    assert n in s.endpoints;
  }

  /** In every reachable state a selection without adapter finds an endpoint within the bound
      while the numbers leave room: the total, corrected by the half-done releases and acquires
      and the leases on removed endpoints, stays below what it takes to fill every endpoint past
      the threshold.  `Fallback.FallbackIff` shows that nothing less will do. */
  lemma BoundAlwaysMet(actions: seq<Action>, factor: real)
    requires Run(START, actions) && |After(START, actions).endpoints| > 0
    requires var s := After(START, actions); RoomLeft(LiveSum(s), s.total, |s.endpoints|, factor)
    ensures BoundMet(After(START, actions), factor)
  {
    hide Inv, LiveSum, RoomLeft;
    StartInv();
    InvAlways(START, actions);
    BoundMetNow(After(START, actions), factor);
  }

  /** At 100 percent or more, half-done releases up to one more than the half-done acquires and
      the leases on removed endpoints are harmless. */
  lemma FewHalfReleasesAreHarmless(actions: seq<Action>, factor: real)
    requires Run(START, actions) && factor >= 1.0 && |After(START, actions).endpoints| > 0
    requires var s := After(START, actions);
             Number(s.phases, HalfReleased) <= 1 + Number(s.phases, HalfAcquired) + Sum(RemovedCounters(s))
    ensures BoundMet(After(START, actions), factor)
  {
    InFlightConserved(actions);
    var s := After(START, actions);
    RoomWithinTotal(LiveSum(s), s.total, |s.endpoints|, factor);
    BoundAlwaysMet(actions, factor);
  }

  /** So with selection and release atomic the fallback is unreachable, even while requests
      still hold leases on removed endpoints. */
  lemma AtomicBoundAlwaysMet(actions: seq<Action>, factor: real)
    requires Run(START, actions) && factor >= 1.0 && |After(START, actions).endpoints| > 0
    requires Number(After(START, actions).phases, HalfReleased) == 0
    ensures BoundMet(After(START, actions), factor)
  {
    InFlightConserved(actions);
    SumNonNegative(RemovedCounters(After(START, actions)));
    FewHalfReleasesAreHarmless(actions, factor);
  }
}
