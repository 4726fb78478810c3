/** Load arithmetic of the two balancing strategies: the bounded-load test of
    internal/loadbalancer/balance_chwbl.go and the minimum of balance_least_load.go, over
    single selections and over whole runs. */
module LoadBounds {
  import opened Wrappers

  /** The load test.  The mean is that of the total after the new request. */
  predicate LoadOK(load: int, total: int, n: nat, loadFactor: real)
    requires n > 0
  {
    total == 0 || load as real <= (total + 1) as real / n as real * loadFactor
  }

  /** The test in whole numbers, for a factor given as a percentage. */
  lemma LoadTestInPercent(load: int, total: int, n: nat, percentage: int)
    requires n > 0
    ensures LoadOK(load, total, n, percentage as real / 100.0) <==>
            total == 0 || 100 * load * n <= percentage * (total + 1)
  {
    var mean, factor := (total + 1) as real / n as real, percentage as real / 100.0;
    DivTimes((total + 1) as real, n as real);
    ScaledTest(load as real, mean, factor, n as real, (total + 1) as real, percentage as real);
    RealProduct(100 * load, n);
    RealProduct(percentage, total + 1);
  }

  lemma ScaledTest(load: real, mean: real, factor: real, n: real, sum: real, percentage: real)
    requires n > 0.0 && n * mean == sum && factor == percentage / 100.0
    ensures load <= mean * factor <==> 100.0 * load * n <= percentage * sum
  {
    var scale := 100.0 * n;
    TimesNotAbove(scale, load, mean * factor);
    assert scale * load == 100.0 * load * n;
    assert scale * (mean * factor) == n * mean * (100.0 * factor);
  }

  lemma TimesNotAbove(scale: real, x: real, y: real)
    requires scale > 0.0
    ensures x <= y <==> scale * x <= scale * y
  {
    if x < y { TimesBelow(scale, x, y); }
    if y < x { TimesBelow(scale, y, x); }
  }

  // ----- sums over a map

  ghost function Sum<K>(m: map<K, int>): int
    decreases |m|
  {
    if m == map[] then 0
    else
      var k :| k in m;
      assert |m - {k}| < |m| by { SmallerMap(m, k); }
      m[k] + Sum(m - {k})
  }

  lemma SmallerMap<K>(m: map<K, int>, k: K)
    requires k in m
    ensures |m - {k}| == |m| - 1
  {
    assert (m - {k}).Keys == m.Keys - {k};
    assert |m - {k}| == |(m - {k}).Keys| && |m| == |m.Keys|;
  }

  /** The sum does not depend on the order in which keys are taken. */
  lemma {:induction false} SumWithout<K>(m: map<K, int>, k: K)
    requires k in m
    ensures Sum(m) == m[k] + Sum(m - {k})
    decreases |m|
  {
    var j :| j in m && Sum(m) == m[j] + Sum(m - {j});
    if j != k {
      SmallerMap(m, j);
      SmallerMap(m, k);
      SumWithout(m - {j}, k);
      SumWithout(m - {k}, j);
      assert m - {j} - {k} == m - {k} - {j};
    }
  }

  lemma SumUpdate<K>(m: map<K, int>, k: K, v: int)
    ensures Sum(m[k := v]) == Sum(m) + v - if k in m then m[k] else 0
  {
    SumWithout(m[k := v], k);
    if k in m {
      SumWithout(m, k);
      assert m[k := v] - {k} == m - {k};
    } else {
      assert m[k := v] - {k} == m;
    }
  }

  lemma {:induction false} SumNonNegative<K>(m: map<K, int>)
    requires forall k :: k in m ==> m[k] >= 0
    ensures Sum(m) >= 0
    decreases |m|
  {
    if m != map[] {
      var k :| k in m;
      SmallerMap(m, k);
      SumNonNegative(m - {k});
      SumWithout(m, k);
    }
  }

  lemma {:induction false} SumZero<K>(m: map<K, int>)
    requires forall k :: k in m ==> m[k] == 0
    ensures Sum(m) == 0
    decreases |m|
  {
    if m != map[] {
      var k :| k in m;
      SmallerMap(m, k);
      SumZero(m - {k});
      SumWithout(m, k);
    }
  }

  lemma OneMore(n: int, c: int)
    ensures n * c == (n - 1) * c + c
  {
  }

  /** If every value is at least `least`, the sum is at least the size times that. */
  lemma {:induction false} SumAtLeast<K>(m: map<K, int>, least: int)
    requires forall k :: k in m ==> m[k] >= least
    ensures Sum(m) >= |m| * least
    decreases |m|
  {
    if m != map[] {
      var k :| k in m;
      SmallerMap(m, k);
      SumWithout(m, k);
      SumAtLeast(m - {k}, least);
      OneMore(|m|, least);
    }
  }

  lemma {:induction false} SumOfConstant<K>(m: map<K, int>, c: int)
    requires forall k :: k in m ==> m[k] == c
    ensures Sum(m) == |m| * c
    decreases |m|
  {
    if m != map[] {
      var k :| k in m;
      SmallerMap(m, k);
      SumWithout(m, k);
      SumOfConstant(m - {k}, c);
      OneMore(|m|, c);
    }
  }

  // ----- bounded load

  lemma DivTimes(a: real, n: real)
    requires n > 0.0
    ensures n * (a / n) == a
  {
  }

  lemma Scaled(mean: real, factor: real)
    requires mean >= 0.0 && factor >= 1.0
    ensures mean <= mean * factor
  {
  }

  /** The largest load that passes the test when the total is not zero. */
  function Threshold(total: int, n: nat, factor: real): int
    requires n > 0
  {
    ((total + 1) as real / n as real * factor).Floor
  }

  lemma PassesIffWithinThreshold(load: int, total: int, n: nat, factor: real)
    requires n > 0
    ensures LoadOK(load, total, n, factor) <==> total == 0 || load <= Threshold(total, n, factor)
  {
  }

  /** The loads of `n` endpoints that sum to `sum` cannot all lie above the threshold. */
  predicate RoomLeft(sum: int, total: int, n: nat, factor: real)
    requires n > 0
  {
    total == 0 || sum < n * (Threshold(total, n, factor) + 1)
  }

  ghost predicate SomePasses<K>(loads: map<K, int>, total: int, factor: real)
    requires |loads| > 0
  {
    exists k :: k in loads && LoadOK(loads[k], total, |loads|, factor)
  }

  /** The fallback of the selection is unreachable while there is room, whatever the loads. */
  lemma {:induction false} SomeEndpointPasses<K>(loads: map<K, int>, total: int, factor: real)
    requires |loads| > 0 && RoomLeft(Sum(loads), total, |loads|, factor)
    ensures SomePasses(loads, total, factor)
  {
    hide LoadOK, Threshold;
    var t := Threshold(total, |loads|, factor);
    if !SomePasses(loads, total, factor) {
      forall k | k in loads ensures total != 0 && loads[k] >= t + 1 {
        PassesIffWithinThreshold(loads[k], total, |loads|, factor);
      }
      SumAtLeast(loads, t + 1);
    }
  }

  /** Without room the loads can be spread so that no endpoint passes: one more than the
      threshold everywhere, and what remains on any one endpoint. */
  lemma NoRoomCanFail<K>(keys: set<K>, sum: nat, total: nat, factor: real) returns (loads: map<K, int>)
    requires keys != {} && factor >= 0.0 && !RoomLeft(sum, total, |keys|, factor)
    ensures loads.Keys == keys && |loads| == |keys| && Sum(loads) == sum
    ensures (forall k :: k in loads ==> loads[k] >= 0) && !SomePasses(loads, total, factor)
  {
    var t, n := Threshold(total, |keys|, factor), |keys|;
    ThresholdNonNegative(total, n, factor);
    hide LoadOK, Threshold;
    var even := map k | k in keys :: t + 1;
    assert even.Keys == keys && |even| == |even.Keys|;
    SumOfConstant(even, t + 1);
    var one :| one in keys;
    loads := even[one := t + 1 + (sum - n * (t + 1))];
    assert loads.Keys == keys && |loads| == |loads.Keys|;
    SumUpdate(even, one, loads[one]);
    forall k | k in loads ensures !LoadOK(loads[k], total, |loads|, factor) {
      PassesIffWithinThreshold(loads[k], total, n, factor);
    }
  }

  lemma ThresholdNonNegative(total: nat, n: nat, factor: real)
    requires n > 0 && factor >= 0.0
    ensures Threshold(total, n, factor) >= 0
  {
    var mean := (total + 1) as real / n as real;
    DivTimes((total + 1) as real, n as real);
    assert mean >= 0.0;
    assert mean * factor >= 0.0;
  }

  /** Exactly when the fallback is unreachable, given only how many endpoints there are and
      what their loads sum to: when there is room. */
  lemma FallbackUnreachableIff<K(!new)>(keys: set<K>, sum: nat, total: nat, factor: real)
    requires keys != {} && factor >= 0.0
    ensures (forall loads: map<K, int> ::
               loads.Keys == keys && |loads| == |keys| && Sum(loads) == sum && (forall k :: k in loads ==> loads[k] >= 0)
               ==> SomePasses(loads, total, factor))
            <==> RoomLeft(sum, total, |keys|, factor)
  {
    hide SomePasses, RoomLeft;
    if RoomLeft(sum, total, |keys|, factor) {
      forall loads: map<K, int> | loads.Keys == keys && |loads| == |keys| && Sum(loads) == sum
        ensures SomePasses(loads, total, factor)
      {
        SomeEndpointPasses(loads, total, factor);
      }
    } else {
      var loads := NoRoomCanFail(keys, sum, total, factor);
    }
  }

  lemma TimesBelow(n: real, x: real, y: real)
    requires n > 0.0 && x < y
    ensures n * x < n * y
  {
  }

  /** At 100 percent or more there is room while the sum is at most the total plus one. */
  lemma RoomWithinTotal(sum: int, total: nat, n: nat, factor: real)
    requires n > 0 && factor >= 1.0 && sum <= total + 1
    ensures RoomLeft(sum, total, n, factor)
  {
    var mean, t := (total + 1) as real / n as real, Threshold(total, n, factor);
    DivTimes((total + 1) as real, n as real);
    Scaled(mean, factor);
    assert mean < (t + 1) as real;
    MeanBelow(total, n, t, mean);
  }

  lemma MeanBelow(total: nat, n: nat, t: int, mean: real)
    requires n > 0 && n as real * mean == (total + 1) as real && mean < (t + 1) as real
    ensures total + 1 < n * (t + 1)
  {
    var bound, product := (t + 1) as real, n * (t + 1);
    TimesBelow(n as real, mean, bound);
    RealProduct(n, t + 1);
    assert (total + 1) as real < product as real;
  }

  /** What the selection without adapter may pick: an endpoint within the bound, or any
      endpoint when there is none. */
  ghost predicate BoundedPick<K>(loads: map<K, int>, total: int, factor: real, pick: K)
    requires |loads| > 0
  {
    pick in loads && (LoadOK(loads[pick], total, |loads|, factor)
                      || forall k :: k in loads ==> !LoadOK(loads[k], total, |loads|, factor))
  }

  /** A least loaded endpoint is a pick of the bounded-load selection too, at any factor. */
  lemma LeastIsBounded<K>(loads: map<K, int>, total: int, factor: real, pick: K)
    requires |loads| > 0 && LeastPick(loads, pick)
    ensures BoundedPick(loads, total, factor, pick)
  {
  }

  /** A run of acquisitions on fixed endpoints; nothing is released. */
  ghost predicate BoundedRun<K(!new)>(start: map<K, int>, picks: seq<K>, factor: real)
    requires |start| > 0
  {
    picks != [] ==>
      var front, pick := picks[..|picks| - 1], picks[|picks| - 1];
      && BoundedRun(start, front, factor)
      && BoundedPick(After(start, front), Sum(start) + |front|, factor, pick)
  }

  function Bump<K>(loads: map<K, int>, pick: K): map<K, int> {
    if pick in loads then loads[pick := loads[pick] + 1] else loads
  }

  function After<K>(start: map<K, int>, picks: seq<K>): (m: map<K, int>)
    ensures m.Keys == start.Keys && |m| == |start|
  {
    if picks == [] then start
    else
      var before := After(start, picks[..|picks| - 1]);
      var m := Bump(before, picks[|picks| - 1]);
      assert m.Keys == start.Keys;
      assert |m| == |m.Keys| && |start| == |start.Keys|;
      m
  }

  ghost predicate Idle<K>(loads: map<K, int>) { forall k :: k in loads ==> loads[k] == 0 }

  /** The bound on one load: the factor times the mean load, plus one. */
  predicate WithinBound(load: int, total: int, n: nat, factor: real)
    requires n > 0
  {
    load as real <= factor * (total as real / n as real) + 1.0
  }

  lemma WithinBoundGrows(load: int, total: int, total': int, n: nat, factor: real)
    requires n > 0 && factor >= 1.0 && total <= total' && WithinBound(load, total, n, factor)
    ensures WithinBound(load, total', n, factor)
  {
    var a, b := total as real / n as real, total' as real / n as real;
    DivTimes(total as real, n as real);
    DivTimes(total' as real, n as real);
    assert a <= b;
    assert factor * a <= factor * b;
  }

  lemma PickWithinBound(load: int, total: int, n: nat, factor: real)
    requires n > 0 && factor >= 1.0 && total >= 0 && LoadOK(load, total, n, factor)
    requires total == 0 ==> load == 0
    ensures WithinBound(load + 1, total + 1, n, factor)
  {
    var mean := (total + 1) as real / n as real;
    DivTimes((total + 1) as real, n as real);
    assert mean >= 0.0;
    assert factor * mean >= 0.0;
    assert mean * factor == factor * mean;
  }

  /** Every load is within the bound of the total, which is their sum. */
  ghost predicate AllWithin<K>(loads: map<K, int>, total: nat, factor: real)
    requires |loads| > 0
  {
    && Sum(loads) == total
    && (forall k :: k in loads ==> loads[k] >= 0)
    && (forall k :: k in loads ==> WithinBound(loads[k], total, |loads|, factor))
  }

  /** A pick with every load within the bound is itself within it, and leaves the others so. */
  lemma PickKeepsAllWithin<K(!new)>(loads: map<K, int>, total: nat, factor: real, pick: K)
    requires |loads| > 0 && factor >= 1.0 && AllWithin(loads, total, factor) && BoundedPick(loads, total, factor, pick)
    ensures |Bump(loads, pick)| == |loads| && AllWithin(Bump(loads, pick), total + 1, factor)
  {
    hide RoomLeft, WithinBound, LoadOK, Sum;
    RoomWithinTotal(total, total, |loads|, factor);
    SomeEndpointPasses(loads, total, factor);
    assert LoadOK(loads[pick], total, |loads|, factor);
    SumUpdate(loads, pick, loads[pick] + 1);
    if total == 0 { ZeroSum(loads, pick); }
    PickWithinBound(loads[pick], total, |loads|, factor);
    forall k | k in loads ensures k != pick ==> WithinBound(loads[k], total + 1, |loads|, factor) {
      WithinBoundGrows(loads[k], total, total + 1, |loads|, factor);
    }
    assert Bump(loads, pick).Keys == loads.Keys;
    assert |Bump(loads, pick)| == |Bump(loads, pick).Keys| && |loads| == |loads.Keys|;
  }

  /** Acquisitions from idle on fixed endpoints never use the fallback, keep the total equal to
      the sum, and keep every load within (factor * mean) + 1. */
  lemma {:induction false} BoundedLoadRun<K(!new)>(start: map<K, int>, picks: seq<K>, factor: real)
    requires |start| > 0 && factor >= 1.0 && Idle(start) && BoundedRun(start, picks, factor)
    ensures var loads := After(start, picks);
            && Sum(loads) == |picks|
            && (forall k :: k in loads ==> loads[k] >= 0)
            && (forall k :: k in loads ==> WithinBound(loads[k], |picks|, |start|, factor))
  {
    SumZero(start);
    if picks != [] {
      var front, pick := picks[..|picks| - 1], picks[|picks| - 1];
      BoundedLoadRun(start, front, factor);
      hide WithinBound, BoundedPick, Sum, Idle;
      PickKeepsAllWithin(After(start, front), |front|, factor, pick);
    }
  }

  /** The same bound written out: no endpoint carries more than the factor times the mean, and one. */
  lemma BoundedLoads<K(!new)>(start: map<K, int>, picks: seq<K>, factor: real, k: K)
    requires |start| > 0 && factor >= 1.0 && BoundedRun(start, picks, factor) && k in start
    requires forall j :: j in start ==> start[j] == 0
    ensures k in After(start, picks) && 0 <= After(start, picks)[k]
    ensures After(start, picks)[k] as real <= factor * (|picks| as real / |start| as real) + 1.0
  {
    BoundedLoadRun(start, picks, factor);
    hide After, BoundedRun, Sum;
  }

  lemma ZeroSum<K>(m: map<K, int>, k: K)
    requires k in m && Sum(m) == 0 && forall j :: j in m ==> m[j] >= 0
    ensures m[k] == 0
  {
    SumWithout(m, k);
    SumNonNegative(m - {k});
  }

  // ----- least load

  ghost predicate LeastPick<K>(loads: map<K, int>, pick: K) {
    pick in loads && forall k :: k in loads ==> loads[pick] <= loads[k]
  }

  ghost predicate LeastRun<K>(start: map<K, int>, picks: seq<K>) {
    picks != [] ==>
      LeastRun(start, picks[..|picks| - 1]) && LeastPick(After(start, picks[..|picks| - 1]), picks[|picks| - 1])
  }

  ghost predicate Even<K>(loads: map<K, int>) {
    forall a, b :: a in loads && b in loads ==> loads[a] <= loads[b] + 1
  }

  lemma {:induction false} LeastExists<K>(loads: map<K, int>) returns (pick: K)
    requires loads != map[]
    ensures LeastPick(loads, pick)
    decreases loads.Keys
  {
    var k :| k in loads;
    pick := k;
    var rest := loads - {k};
    assert rest.Keys == loads.Keys - {k};
    assert forall j :: j in loads ==> j == k || (j in rest && rest[j] == loads[j]);
    if rest != map[] {
      var other := LeastExists(rest);
      if loads[other] < loads[k] { pick := other; }
    }
  }

  lemma LeastBumpKeepsEven<K>(loads: map<K, int>, pick: K)
    requires Even(loads) && LeastPick(loads, pick)
    ensures Even(Bump(loads, pick)) && Sum(Bump(loads, pick)) == Sum(loads) + 1
  {
    SumUpdate(loads, pick, loads[pick] + 1);
  }

  lemma {:induction false} SumAtMost<K>(m: map<K, int>, most: int)
    requires forall k :: k in m ==> m[k] <= most
    ensures Sum(m) <= |m| * most
    decreases |m|
  {
    if m != map[] {
      var k :| k in m;
      SmallerMap(m, k);
      SumWithout(m, k);
      SumAtMost(m - {k}, most);
      OneMore(|m|, most);
    }
  }

  lemma SumBelow<K>(m: map<K, int>, k: K, most: int)
    requires k in m && m[k] < most && forall j :: j in m ==> m[j] <= most
    ensures Sum(m) < |m| * most
  {
    SmallerMap(m, k);
    SumWithout(m, k);
    SumAtMost(m - {k}, most);
    OneMore(|m|, most);
  }

  /** Even loads without room all fail the test. */
  lemma EvenWithoutRoomFails<K(!new)>(loads: map<K, int>, total: int, factor: real)
    requires |loads| > 0 && Even(loads) && !RoomLeft(Sum(loads), total, |loads|, factor)
    ensures !SomePasses(loads, total, factor)
  {
    hide LoadOK, Threshold;
    var t := Threshold(total, |loads|, factor);
    if k :| k in loads && LoadOK(loads[k], total, |loads|, factor) {
      PassesIffWithinThreshold(loads[k], total, |loads|, factor);
      if total != 0 { SumBelow(loads, k, t + 1); }
    }
  }

  /** How far the loads are below `level`, in all. */
  ghost function Gap<K>(loads: map<K, int>, level: int): int {
    Sum(map k | k in loads :: level - loads[k])
  }

  lemma GapBump<K>(loads: map<K, int>, level: int, pick: K)
    requires pick in loads
    ensures Gap(Bump(loads, pick), level) == Gap(loads, level) - 1
  {
    var gaps := map k | k in loads :: level - loads[k];
    assert (map k | k in Bump(loads, pick) :: level - Bump(loads, pick)[k]) == gaps[pick := gaps[pick] - 1];
    SumUpdate(gaps, pick, gaps[pick] - 1);
  }

  /** From any loads: until the endpoints are even, no load passes the level of the highest at
      the start, and each acquisition closes the gap below that level by one. */
  lemma {:induction false} LeastRunLevels<K(!new)>(start: map<K, int>, picks: seq<K>, level: int)
    requires LeastRun(start, picks) && forall k :: k in start ==> start[k] <= level
    ensures var loads := After(start, picks);
            Even(loads) || ((forall k :: k in loads ==> loads[k] <= level) && Gap(loads, level) == Gap(start, level) - |picks|)
  {
    if picks != [] {
      var front, pick := picks[..|picks| - 1], picks[|picks| - 1];
      LeastRunLevels(start, front, level);
      var loads := After(start, front);
      if !Even(loads) {
        var a, b :| a in loads && b in loads && loads[a] > loads[b] + 1;
        GapBump(loads, level, pick);
      }
    }
  }

  lemma ClosedGap<K>(loads: map<K, int>, level: int)
    requires Gap(loads, level) <= 0 && forall k :: k in loads ==> loads[k] <= level
    ensures forall k :: k in loads ==> loads[k] == level
  {
    var gaps := map k | k in loads :: level - loads[k];
    forall k | k in loads ensures loads[k] == level {
      SumWithout(gaps, k);
      SumNonNegative(gaps - {k});
    }
  }

  /** Once as many requests have been acquired as the gap below the highest load, loads differ
      by at most one, and from then on always. */
  lemma LeastLoadEvensOut<K(!new)>(start: map<K, int>, picks: seq<K>, level: int)
    requires LeastRun(start, picks) && forall k :: k in start ==> start[k] <= level
    requires |picks| >= Gap(start, level)
    ensures Even(After(start, picks))
  {
    LeastRunLevels(start, picks, level);
    if !Even(After(start, picks)) { ClosedGap(After(start, picks), level); }
  }

  /** From idle, loads never differ by more than one. */
  lemma {:induction false} LeastLoadFair<K(!new)>(start: map<K, int>, picks: seq<K>)
    requires LeastRun(start, picks) && Idle(start)
    ensures Even(After(start, picks))
  {
    SumZero(map k | k in start :: 0 - start[k]);
    LeastLoadEvensOut(start, picks, 0);
  }
}
