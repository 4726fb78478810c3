/** Exactly when the bounded-load selection can miss every endpoint
    (internal/loadbalancer/balance_chwbl.go, group.go), given what can be read off a state: the
    endpoints, the total, the half-done updates and the leases on removed endpoints.

    One half is `InFlight.BoundAlwaysMet`.  For the other, a run is built for any such numbers:
    leases on an endpoint that then goes, leases spread over a fleet, half-done releases, and
    half-done acquires. */
module Fallback {
  import LoadBounds
  import opened InFlight

  /** The numbers a state shows. */
  ghost predicate Shows(s: State, n: nat, total: int, halfReleased: nat, halfAcquired: nat, removed: int) {
    && |s.endpoints| == n && s.total == total
    && Number(s.phases, HalfReleased) == halfReleased && Number(s.phases, HalfAcquired) == halfAcquired
    && LoadBounds.Sum(RemovedCounters(s)) == removed
  }

  // ----- building runs

  lemma Extend(choice: Choice, run: seq<Action>, a: Action) returns (longer: seq<Action>)
    requires RunBy(choice, run) && Enabled(After(START, run), a) && (a.Select? ==> Picks(choice, After(START, run), a.name))
    ensures RunBy(choice, longer) && Run(START, longer) && After(START, longer) == Next(After(START, run), a)
  {
    longer := run + [a];
    assert longer[..|longer| - 1] == run;
  }

  lemma LeastIsPicked(choice: Choice, s: State, name: string)
    requires LoadBounds.LeastPick(LiveLoads(s), name)
    ensures Picks(choice, s, name)
  {
    assert |LiveLoads(s)| > 0;
    hide LoadBounds.LoadOK;
    if choice.Bounded? { LoadBounds.LeastIsBounded(LiveLoads(s), s.total, choice.factor, name); }
  }

  /** A new request selects a least loaded endpoint and adds to the total. */
  lemma SelectLeast(choice: Choice, run: seq<Action>, t: nat, name: string) returns (longer: seq<Action>)
    requires RunBy(choice, run) && Run(START, run)
    requires t !in After(START, run).phases && LoadBounds.LeastPick(LiveLoads(After(START, run)), name)
    ensures RunBy(choice, longer) && Run(START, longer)
    ensures var s := After(START, run);
            name in s.endpoints && After(START, longer) == s.(total := s.total + 1, phases := s.phases[t := Counted(s.endpoints[name])])
  {
    hide Run, RunBy, After, Picks;
    var s := After(START, run);
    longer := Extend(choice, run, Arrive(t));
    assert LiveLoads(After(START, longer)) == LiveLoads(s);
    LeastIsPicked(choice, After(START, longer), name);
    longer := Extend(choice, longer, Select(t, name));
    longer := Extend(choice, longer, AddTotal(t));
    var c := s.endpoints[name];
    assert s.phases[t := Arrived][t := Selected(c)][t := Counted(c)] == s.phases[t := Counted(c)];
  }

  /** A new request acquires a lease on a least loaded endpoint. */
  lemma Acquire(choice: Choice, run: seq<Action>, t: nat, name: string) returns (longer: seq<Action>)
    requires RunBy(choice, run) && Run(START, run)
    requires t !in After(START, run).phases && LoadBounds.LeastPick(LiveLoads(After(START, run)), name)
    ensures RunBy(choice, longer) && Run(START, longer)
    ensures var s, s' := After(START, run), After(START, longer);
            && name in s.endpoints && s.endpoints[name] in s.counters
            && s' == s.(counters := s'.counters, total := s.total + 1, phases := s.phases[t := Holding(s.endpoints[name])])
            && s'.counters == s.counters[s.endpoints[name] := s.counters[s.endpoints[name]] + 1]
  {
    var s := After(START, run);
    assert name in s.endpoints && s.endpoints[name] in s.counters;
    hide Run, RunBy, After, Picks, LoadBounds.LeastPick;
    longer := SelectLeast(choice, run, t, name);
    longer := Extend(choice, longer, AddCounter(t));
    var c := s.endpoints[name];
    assert s.phases[t := Counted(c)][t := Holding(c)] == s.phases[t := Holding(c)];
  }

  lemma BumpLive(s: State, s': State, name: string)
    requires WellFormed(s) && name in s.endpoints && s'.endpoints == s.endpoints
    requires s'.counters == s.counters[s.endpoints[name] := s.counters[s.endpoints[name]] + 1]
    ensures LiveLoads(s') == LoadBounds.Bump(LiveLoads(s), name) && s'.counters.Keys == s.counters.Keys
  {
  }

  lemma RunInv(run: seq<Action>)
    requires Run(START, run)
    ensures Inv(After(START, run))
  {
    StartInv();
    InvAlways(START, run);
  }

  /** Exactly the requests below `m` exist. */
  ghost predicate Requested(phases: map<nat, Phase>, m: nat) { forall t: nat :: t in phases <==> t < m }

  ghost predicate AllHold(phases: map<nat, Phase>, from: nat) {
    forall t :: t in phases && t >= from ==> phases[t].Holding?
  }

  /** Every request, numbered below `m`, holds a lease. */
  ghost predicate AllLeased(s: State, m: nat) { Requested(s.phases, m) && AllHold(s.phases, 0) }

  /** What `k` more leases, evenly spread, make of a state. */
  ghost predicate Spread(s: State, s': State, k: nat) {
    && s'.endpoints == s.endpoints && s'.counters.Keys == s.counters.Keys && s'.total == s.total + k
    && LoadBounds.Even(LiveLoads(s')) && LoadBounds.Sum(LiveLoads(s')) == LoadBounds.Sum(LiveLoads(s)) + k
  }

  lemma OneMoreSpread(s: State, mid: State, s': State, k: nat, name: string)
    requires Spread(s, mid, k) && Inv(mid) && LoadBounds.LeastPick(LiveLoads(mid), name)
    requires name in mid.endpoints && s'.endpoints == mid.endpoints && s'.total == mid.total + 1
    requires s'.counters == mid.counters[mid.endpoints[name] := mid.counters[mid.endpoints[name]] + 1]
    ensures Spread(s, s', k + 1)
  {
    BumpLive(mid, s', name);
    hide Inv, LiveLoads, LoadBounds.LeastPick, LoadBounds.Even;
    LoadBounds.LeastBumpKeepsEven(LiveLoads(mid), name);
  }

  lemma LeastLive(s: State) returns (name: string)
    requires Inv(s) && s.endpoints != map[]
    ensures LoadBounds.LeastPick(LiveLoads(s), name)
  {
    var any :| any in s.endpoints;
    assert any in LiveLoads(s);
    name := LoadBounds.LeastExists(LiveLoads(s));
  }

  lemma NextRequest(s: State, m: nat)
    requires AllLeased(s, m)
    ensures m !in s.phases
  {
  }

  lemma NoneSpread(s: State)
    requires LoadBounds.Even(LiveLoads(s))
    ensures Spread(s, s, 0)
  {
  }

  lemma SpreadParts(s: State, s': State, k: nat)
    requires Spread(s, s', k)
    ensures s'.endpoints == s.endpoints && s'.total == s.total + k && LoadBounds.Even(LiveLoads(s'))
    ensures LoadBounds.Sum(LiveLoads(s')) == LoadBounds.Sum(LiveLoads(s)) + k
  {
  }

  lemma OneMoreLeased(s: State, s': State, m: nat, c: nat)
    requires AllLeased(s, m) && s'.phases == s.phases[m := Holding(c)]
    ensures AllLeased(s', m + 1)
  {
  }

  /** `k` new requests acquire leases, each on a least loaded endpoint. */
  lemma {:induction false} AcquireMany(choice: Choice, run: seq<Action>, k: nat, m: nat) returns (longer: seq<Action>)
    requires RunBy(choice, run) && Run(START, run) && AllLeased(After(START, run), m)
    requires After(START, run).endpoints != map[] && LoadBounds.Even(LiveLoads(After(START, run)))
    ensures RunBy(choice, longer) && Run(START, longer) && AllLeased(After(START, longer), m + k)
    ensures Spread(After(START, run), After(START, longer), k)
  {
    hide *;
    var s := After(START, run);
    if k == 0 {
      longer := run;
      NoneSpread(s);
    } else {
      longer := AcquireMany(choice, run, k - 1, m);
      var mid, t := After(START, longer), m + (k - 1);
      RunInv(longer);
      SpreadParts(s, mid, k - 1);
      var name := LeastLive(mid);
      NextRequest(mid, t);
      longer := Acquire(choice, longer, t, name);
      OneMoreLeased(mid, After(START, longer), t, mid.endpoints[name]);
      OneMoreSpread(s, mid, After(START, longer), k - 1, name);
    }
  }

  /** The first `h` requests each do the first half of a release. */
  lemma {:induction false} HalfRelease(choice: Choice, run: seq<Action>, h: nat, m: nat) returns (longer: seq<Action>)
    requires RunBy(choice, run) && Run(START, run) && h <= m && AllLeased(After(START, run), m)
    ensures RunBy(choice, longer) && Run(START, longer)
    ensures var s, s' := After(START, run), After(START, longer);
            && s' == s.(total := s.total - h, phases := s'.phases)
            && Requested(s'.phases, m) && AllHold(s'.phases, h)
            && Number(s'.phases, HalfReleased) == h && Number(s'.phases, HalfAcquired) == 0
  {
    hide Run, RunBy, After;
    if h == 0 {
      longer := run;
      assert Requests(After(START, run).phases, HalfReleased) == {};
      assert Requests(After(START, run).phases, HalfAcquired) == {};
    } else {
      longer := HalfRelease(choice, run, h - 1, m);
      var s := After(START, longer);
      hide Number;
      longer := Extend(choice, longer, SubTotal(h - 1));
      NumberUpdate(s.phases, h - 1, Releasing(s.phases[h - 1].counter), HalfReleased);
      NumberUpdate(s.phases, h - 1, Releasing(s.phases[h - 1].counter), HalfAcquired);
    }
  }

  /** `a` new requests each do the first half of an acquire. */
  lemma {:induction false} HalfAcquire(choice: Choice, run: seq<Action>, name: string, a: nat, m: nat) returns (longer: seq<Action>)
    requires RunBy(choice, run) && Run(START, run)
    requires Requested(After(START, run).phases, m) && LoadBounds.LeastPick(LiveLoads(After(START, run)), name)
    ensures RunBy(choice, longer) && Run(START, longer)
    ensures var s, s' := After(START, run), After(START, longer);
            && s' == s.(total := s.total + a, phases := s'.phases)
            && Requested(s'.phases, m + a)
            && Number(s'.phases, HalfReleased) == Number(s.phases, HalfReleased)
            && Number(s'.phases, HalfAcquired) == Number(s.phases, HalfAcquired) + a
  {
    hide Run, RunBy, After, Number, LoadBounds.LeastPick;
    if a == 0 {
      longer := run;
    } else {
      longer := HalfAcquire(choice, run, name, a - 1, m);
      var s, t := After(START, longer), m + (a - 1);
      assert LiveLoads(s) == LiveLoads(After(START, run));
      longer := SelectLeast(choice, longer, t, name);
      NumberUpdate(s.phases, t, Counted(s.endpoints[name]), HalfReleased);
      NumberUpdate(s.phases, t, Counted(s.endpoints[name]), HalfAcquired);
    }
  }

  // ----- a fleet of any size, beside an endpoint that is gone

  ghost predicate Distinct(endpoints: map<string, nat>) {
    forall m, n :: m in endpoints && n in endpoints && m != n ==> endpoints[m] != endpoints[n]
  }

  function Name(i: nat): string { seq(i, _ => 'e') }

  function Fleet(n: nat): map<string, nat> {
    if n == 0 then map[] else Fleet(n - 1)[Name(n) := n]
  }

  lemma {:induction false} FleetShape(n: nat)
    ensures |Fleet(n)| == n && Distinct(Fleet(n))
    ensures forall k :: k in Fleet(n) ==> 1 <= |k| == Fleet(n)[k] <= n
  {
    if n > 0 {
      FleetShape(n - 1);
      var small, large, x := Fleet(n - 1), Fleet(n), Name(n);
      assert x !in small;
      assert large.Keys == small.Keys + {x} && |large| == |large.Keys| && |small| == |small.Keys|;
    }
  }

  /** Other endpoints, with counters of their own, take the place of those there are. */
  lemma Arrives(choice: Choice, run: seq<Action>, observed: map<string, nat>, m: nat) returns (longer: seq<Action>)
    requires RunBy(choice, run) && Run(START, run) && AllLeased(After(START, run), m) && Distinct(observed)
    requires var s := After(START, run);
             forall n :: n in observed ==> n !in s.endpoints && observed[n] !in s.counters
    ensures RunBy(choice, longer) && Run(START, longer)
    ensures var s, s' := After(START, run), After(START, longer);
            && s'.endpoints == observed && s'.total == s.total && AllLeased(s', m)
            && s'.counters.Keys == s.counters.Keys + observed.Values
            && LoadBounds.Even(LiveLoads(s')) && LoadBounds.Sum(LiveLoads(s')) == 0
  {
    hide Run, RunBy, After;
    var s := After(START, run);
    longer := Extend(choice, run, Reconcile(observed));
    var s' := After(START, longer);
    assert s'.counters.Keys == s.counters.Keys + NewCounters(s, observed).Keys;
    forall n | n in LiveLoads(s') ensures LiveLoads(s')[n] == 0 { assert observed[n] in observed.Values; }
    hide LiveLoads;
    LoadBounds.SumZero(LiveLoads(s'));
  }

  const GONE := "gone"

  lemma LeasesOnGone(choice: Choice, r: nat) returns (run: seq<Action>)
    ensures RunBy(choice, run) && Run(START, run)
    ensures var s := After(START, run);
            s.endpoints == map[GONE := 0] && s.counters.Keys == {0} && s.total == r && AllLeased(s, r)
  {
    var observed := map[GONE := 0];
    assert observed[GONE] == 0 && observed.Values == {0};
    run := Arrives(choice, [], observed, 0);
    hide Run, RunBy, After;
    assert After(START, run).counters.Keys == {0};
    run := AcquireMany(choice, run, r, 0);
  }

  lemma {:induction false} GoneIsNotInFleet(n: nat)
    ensures GONE !in Fleet(n)
  {
    if n > 0 {
      GoneIsNotInFleet(n - 1);
      assert n >= 1 ==> Name(n)[0] == 'e' && GONE[0] == 'g';
    }
  }

  /** `sum` leases evenly spread on a fleet of `n`, and `r` leases on an endpoint that is gone. */
  lemma LoadedFleet(choice: Choice, n: nat, r: nat, sum: nat) returns (run: seq<Action>)
    requires n >= 1
    ensures RunBy(choice, run) && Run(START, run)
    ensures var s := After(START, run);
            && |s.endpoints| == n && s.total == r + sum && AllLeased(s, r + sum)
            && LoadBounds.Even(LiveLoads(s)) && LoadBounds.Sum(LiveLoads(s)) == sum
  {
    run := LeasesOnGone(choice, r);
    FleetShape(n);
    GoneIsNotInFleet(n);
    hide Run, RunBy, After, Fleet, AllLeased, LiveLoads, LoadBounds.Even, LoadBounds.Sum;
    run := Arrives(choice, run, Fleet(n), r);
    assert |Fleet(n)| > 0;
    run := AcquireMany(choice, run, sum, r);
  }

  /** With even loads and no room, every live endpoint fails the test. */
  lemma AllFail(s: State, factor: real)
    requires Inv(s) && |s.endpoints| > 0 && LoadBounds.Even(LiveLoads(s))
    requires !LoadBounds.RoomLeft(LiveSum(s), s.total, |s.endpoints|, factor)
    ensures !BoundMet(s, factor)
  {
    LiveLoadsSum(s);
    var loads := LiveLoads(s);
    assert forall n :: n in s.endpoints && s.endpoints[n] in s.counters ==> n in loads && loads[n] == s.counters[s.endpoints[n]];
    hide Inv, LiveLoads, LoadBounds.Even, LiveSum, LoadBounds.RoomLeft, LoadBounds.LoadOK;
    LoadBounds.EvenWithoutRoomFails(loads, s.total, factor);
  }

  lemma SameLoads(s: State, s': State)
    requires s'.endpoints == s.endpoints && s'.counters == s.counters
    ensures LiveLoads(s') == LiveLoads(s)
  {
  }

  lemma NumbersShown(s: State, n: nat, total: int, h: nat, a: nat, r: int)
    requires |s.endpoints| == n && s.total == total && LiveSum(s) == total + h - a - r
    requires Number(s.phases, HalfReleased) == h && Number(s.phases, HalfAcquired) == a
    ensures Shows(s, n, total, h, a, r)
  {
  }

  /** For any numbers without room there is a run that shows them and misses the bound, in which
      every request chooses by the strategy. */
  lemma NoRoomIsReached(choice: Choice, n: nat, total: nat, h: nat, a: nat, r: nat, factor: real) returns (run: seq<Action>)
    requires n >= 1 && a <= total && factor >= 0.0
    requires !LoadBounds.RoomLeft(total + h - a - r, total, n, factor)
    ensures RunBy(choice, run) && Run(START, run)
    ensures Shows(After(START, run), n, total, h, a, r) && !BoundMet(After(START, run), factor)
  {
    var sum := RoomIsNatural(total + h - a - r, total, n, factor);
    run := LoadedFleet(choice, n, r, sum);
    hide *;
    var s := After(START, run);
    run := HalfRelease(choice, run, h, r + sum);
    RunInv(run);
    var name := LeastLive(After(START, run));
    SameLoads(s, After(START, run));
    run := HalfAcquire(choice, run, name, a, r + sum);
    RunInv(run);
    var s' := After(START, run);
    SameLoads(s, s');
    LiveLoadsSum(s');
    NumbersShown(s', n, total, h, a, r);
    AllFail(s', factor);
  }

  lemma RoomIsNatural(sum: int, total: nat, n: nat, factor: real) returns (s: nat)
    requires n > 0 && factor >= 0.0 && !LoadBounds.RoomLeft(sum, total, n, factor)
    ensures s == sum
  {
    LoadBounds.ThresholdNonNegative(total, n, factor);
    hide LoadBounds.Threshold;
    Positive(n, LoadBounds.Threshold(total, n, factor) + 1);
    s := sum;
  }

  lemma Positive(a: int, b: int)
    requires a > 0 && b > 0
    ensures a * b > 0
  {
  }

  // ----- exactly when

  ghost predicate AlwaysMet(n: nat, total: int, h: nat, a: nat, r: int, factor: real) {
    forall actions :: Run(START, actions) && Shows(After(START, actions), n, total, h, a, r) ==> BoundMet(After(START, actions), factor)
  }

  /** The same over the runs in which every request chooses by the strategy. */
  ghost predicate AlwaysMetBy(choice: Choice, n: nat, total: int, h: nat, a: nat, r: int, factor: real) {
    forall actions :: RunBy(choice, actions) && Shows(After(START, actions), n, total, h, a, r) ==> BoundMet(After(START, actions), factor)
  }

  lemma RoomIsEnough(n: nat, total: nat, h: nat, a: nat, r: nat, factor: real, actions: seq<Action>)
    requires n >= 1 && LoadBounds.RoomLeft(total + h - a - r, total, n, factor)
    requires Run(START, actions) && Shows(After(START, actions), n, total, h, a, r)
    ensures BoundMet(After(START, actions), factor)
  {
    hide Run, After, BoundMet, LoadBounds.RoomLeft;
    BoundAlwaysMet(actions, factor);
  }

  /** A selection without adapter finds an endpoint within the bound in every reachable state
      that shows the numbers, if and only if they leave room; and the same holds of the states
      reached when every request chooses by one strategy. */
  lemma FallbackIff(choice: Choice, n: nat, total: nat, h: nat, a: nat, r: nat, factor: real)
    requires n >= 1 && a <= total && factor >= 0.0
    ensures AlwaysMet(n, total, h, a, r, factor) <==> LoadBounds.RoomLeft(total + h - a - r, total, n, factor)
    ensures AlwaysMetBy(choice, n, total, h, a, r, factor) <==> LoadBounds.RoomLeft(total + h - a - r, total, n, factor)
  {
    if LoadBounds.RoomLeft(total + h - a - r, total, n, factor) {
      hide After, BoundMet, Shows, LoadBounds.RoomLeft;
      forall actions | Run(START, actions) && Shows(After(START, actions), n, total, h, a, r)
        ensures BoundMet(After(START, actions), factor)
      {
        RoomIsEnough(n, total, h, a, r, factor, actions);
      }
    } else {
      hide Run, RunBy, After, BoundMet, Shows, LoadBounds.RoomLeft;
      var run := NoRoomIsReached(choice, n, total, h, a, r, factor);
    }
  }

  /** At 100 percent the fallback is reachable with any numbers of half-done acquires and leases
      on removed endpoints and two more half-done releases than these. */
  lemma HalfReleasesDefeatTheBound(choice: Choice, h: nat, a: nat, r: nat) returns (run: seq<Action>)
    requires h >= 2 + a + r
    ensures RunBy(choice, run) && Run(START, run)
    ensures Shows(After(START, run), 1, a + 1, h, a, r) && !BoundMet(After(START, run), 1.0)
  {
    assert LoadBounds.Threshold(a + 1, 1, 1.0) == a + 2;
    run := NoRoomIsReached(choice, 1, a + 1, h, a, r, 1.0);
  }

  /** With two half-done releases a selection can find every live endpoint above the bound. */
  lemma TwoHalfReleasesDefeatTheBound(choice: Choice) returns (actions: seq<Action>)
    ensures RunBy(choice, actions) && Run(START, actions)
    ensures var s := After(START, actions);
            |s.endpoints| > 0 && Number(s.phases, HalfReleased) == 2 && !BoundMet(s, 1.0)
  {
    actions := HalfReleasesDefeatTheBound(choice, 2, 0, 0);
  }
}
