/** The autoscaler (internal/modelautoscaler/autoscaler.go): one moving average per model,
    a ceiling target, and the scaling decision; and what idle models come to. */
module Autoscaler {
  import opened Wrappers
  import opened MovingAverage
  import opened Scaling

  /** What the autoscaler carries from tick to tick for one model. */
  datatype Track = Track(window: seq<real>, streak: int, replicas: Option<int>)

  /** The replicas asked for: the average active requests over the target per replica, rounded up. */
  function Wanted(window: seq<real>, targetRequests: int): int
    requires window != [] && targetRequests > 0
  {
    Ceil(Average(window) / targetRequests as real)
  }

  /** The replicas wanted are the fewest that keep the average load per replica within the target. */
  lemma WantedIsFewest(window: seq<real>, targetRequests: int)
    requires window != [] && targetRequests > 0
    ensures var n := Wanted(window, targetRequests) as real;
            Average(window) <= n * targetRequests as real < Average(window) + targetRequests as real
  {
    hide Ceil, Average;
    var a, t := Average(window), targetRequests as real;
    CeilBounds(a / t);
    QuotientTimes(a, t);
    TimesBounds(a / t, Ceil(a / t) as real, t, a);
  }

  function TickDecision(t: Track, m: Model, sample: real, targetRequests: int, required: int): Decision
    requires t.window != [] && targetRequests > 0
  {
    Decide(t.streak, Existing(t.replicas), EnforceReplicaBounds(Wanted(Slide(t.window, sample), targetRequests), m), required)
  }

  /** One tick with every update accepted and no other writer. */
  function Tick(t: Track, m: Model, sample: real, targetRequests: int, required: int): (r: Track)
    requires t.window != [] && targetRequests > 0
    ensures |r.window| == |t.window| && (t.streak >= 0 ==> r.streak >= 0)
  {
    var d := TickDecision(t, m, sample, targetRequests, required);
    Track(Slide(t.window, sample), d.streak, if d.write.Some? then d.write else t.replicas)
  }

  /** The decision for any `n` that is the least to cover the average of the window with the new
      sample in it: it is the decision for `n` replicas. */
  lemma DecidesByTheFewest(t: Track, m: Model, sample: real, targetRequests: int, required: int, n: int)
    requires t.window != [] && targetRequests > 0
    requires var average := Average(t.window[1..] + [sample]);
             average <= n as real * targetRequests as real < average + targetRequests as real
    ensures TickDecision(t, m, sample, targetRequests, required) ==
            Decide(t.streak, if t.replicas.Some? then t.replicas.value else 0, EnforceReplicaBounds(n, m), required)
  {
    var window := Slide(t.window, sample);
    WantedIsFewest(window, targetRequests);
    OneMultiple(n, Wanted(window, targetRequests), targetRequests, Average(window));
  }

  lemma OneMultiple(m: int, n: int, t: int, a: real)
    requires t > 0 && a <= m as real * t as real < a + t as real && a <= n as real * t as real < a + t as real
    ensures m == n
  {
    RealProduct(m, t);
    RealProduct(n, t);
    RealProduct(m - n, t);
    assert -t < m * t - n * t < t;
    assert (m - n) * t == m * t - n * t;
    if m != n { SmallMultiple(m - n, t); }
  }

  lemma SmallMultiple(k: int, t: int)
    requires t > 0 && k != 0
    ensures k * t >= t || k * t <= -t
  {
    if k > 0 {
      OneLess(k, t);
      NonNegativeProduct(k - 1, t);
    } else {
      OneLess(-k, t);
      NonNegativeProduct(-k - 1, t);
      Negated(k, t);
    }
  }

  lemma OneLess(k: int, t: int)
    ensures (k - 1) * t == k * t - t
  {
  }

  lemma Negated(k: int, t: int)
    ensures -k * t == -(k * t)
  {
  }

  lemma NonNegativeProduct(a: int, b: int)
    requires a >= 0 && b >= 0
    ensures a * b >= 0
  {
  }

  function SumInts(s: seq<int>): int { if s == [] then 0 else SumInts(s[..|s| - 1]) + s[|s| - 1] }

  function Constant(n: nat, x: real): (s: seq<real>)
    ensures |s| == n && forall i :: 0 <= i < n ==> s[i] == x
  {
    seq(n, _ => x)
  }

  method NewPrefilledSlice(length: nat, value: real) returns (s: array<real>)
    ensures fresh(s) && s[..] == Constant(length, value)
  {
    s := new real[length];
    for i := 0 to length
      invariant forall j :: 0 <= j < i ==> s[j] == value
    {
      s[i] := value;
    }
  }

  method NewAverage(length: nat, value: real) returns (avg: Simple)
    requires length > 0
    ensures fresh(avg) && fresh(avg.history) && avg.Valid() && avg.history.Length == length
    ensures avg.Window() == Constant(length, value)
  {
    hide Constant;
    var seed := NewPrefilledSlice(length, value);
    avg := new Simple(seed);
  }

  class Autoscaler {
    const windowCount: nat
    const client: ModelClient
    var movingAvgByModel: map<string, Simple>

    /** The objects behind the averages, each with the model it belongs to. */
    ghost var holder: map<object, string>

    ghost predicate Valid() reads this, holder.Keys {
      && windowCount > 0
      && forall n :: n in movingAvgByModel ==>
           var avg := movingAvgByModel[n];
           && avg in holder && holder[avg] == n && avg.history in holder && holder[avg.history] == n
           && avg.Valid() && avg.history.Length == windowCount
    }

    /** A model not seen before counts as having been idle. */
    ghost function WindowOf(name: string): (w: seq<real>)
      requires Valid()
      reads this, holder.Keys
      ensures |w| == windowCount
    {
      if name in movingAvgByModel then movingAvgByModel[name].Window() else Constant(windowCount, 0.0)
    }

    /** Preloads the averages saved by an earlier process. */
    constructor (windowCount: nat, client: ModelClient, saved: map<string, real>)
      requires windowCount > 0
      ensures Valid() && this.windowCount == windowCount && this.client == client && fresh(holder.Keys)
      ensures forall n :: WindowOf(n) == Constant(windowCount, if n in saved then saved[n] else 0.0)
      ensures forall n :: Average(WindowOf(n)) == if n in saved then saved[n] else 0.0
    {
      this.windowCount, this.client, movingAvgByModel, holder := windowCount, client, map[], map[];
      new;
      Preload(saved);
      hide Average;
      forall n ensures Average(WindowOf(n)) == if n in saved then saved[n] else 0.0 {
        AverageOfOneValue(WindowOf(n), if n in saved then saved[n] else 0.0);
      }
    }

    method Preload(saved: map<string, real>)
      requires Valid() && movingAvgByModel == map[]
      modifies this`movingAvgByModel, this`holder
      ensures Valid() && fresh(holder.Keys - old(holder.Keys))
      ensures forall n :: WindowOf(n) == Constant(windowCount, if n in saved then saved[n] else 0.0)
    {
      var todo := saved.Keys;
      while todo != {}
        invariant todo <= saved.Keys && Valid() && fresh(holder.Keys - old(holder.Keys))
        invariant forall n :: n in movingAvgByModel <==> n in saved && n !in todo
        invariant forall n :: n in saved && n !in todo ==> WindowOf(n) == Constant(windowCount, saved[n])
        decreases todo
      {
        var n :| n in todo;
        var avg := AddAverage(n, saved[n]);
        todo := todo - {n};
      }
    }

    method AddAverage(name: string, value: real) returns (avg: Simple)
      requires Valid() && name !in movingAvgByModel
      modifies this`movingAvgByModel, this`holder
      ensures Valid() && fresh(holder.Keys - old(holder.Keys))
      ensures movingAvgByModel == old(movingAvgByModel)[name := avg]
      ensures WindowOf(name) == Constant(windowCount, value)
      ensures forall n :: n != name ==> WindowOf(n) == old(WindowOf(n))
    {
      hide Constant;
      avg := NewAverage(windowCount, value);
      movingAvgByModel := movingAvgByModel[name := avg];
      holder := holder[avg := name][avg.history := name];
    }

    method GetMovingAvgActiveReqPerModel(name: string) returns (avg: Simple)
      requires Valid()
      modifies this`movingAvgByModel, this`holder
      ensures Valid() && name in movingAvgByModel && avg == movingAvgByModel[name]
      ensures forall n :: WindowOf(n) == old(WindowOf(n))
      ensures fresh(holder.Keys - old(holder.Keys))
    {
      if name in movingAvgByModel {
        avg := movingAvgByModel[name];
      } else {
        avg := AddAverage(name, 0.0);
      }
    }

    /** One more sample for one model; the windows of all others stay as they are. */
    method Sample(name: string, sample: real) returns (average: real)
      requires Valid()
      modifies this`movingAvgByModel, this`holder, holder.Keys
      ensures Valid() && fresh(holder.Keys - old(holder.Keys))
      ensures WindowOf(name) == Slide(old(WindowOf(name)), sample) && average == Average(WindowOf(name))
      ensures forall n :: n != name ==> WindowOf(n) == old(WindowOf(n))
    {
      hide Slide, Average;
      var avg := GetMovingAvgActiveReqPerModel(name);
      avg.Next(sample);
      average := avg.Calculate();
    }

    static method SumActive(active: seq<int>) returns (sum: int)
      ensures sum == SumInts(active)
    {
      sum := 0;
      for i := 0 to |active|
        invariant sum == SumInts(active[..i])
      {
        assert active[..i + 1][..i] == active[..i];
        sum := sum + active[i];
      }
      assert active[..|active|] == active;
    }

    /** The part of a tick that concerns one model.  `active` lists its active requests as
        reported by each KubeAI instance. */
    method ScaleModel(m: Model, active: seq<int>, targetRequests: int, required: int) returns (write: Option<int>, average: real)
      requires Valid() && targetRequests > 0 && client !in holder
      modifies this`movingAvgByModel, this`holder, holder.Keys, client
      ensures Valid() && fresh(holder.Keys - old(holder.Keys))
      ensures WindowOf(m.name) == Slide(old(WindowOf(m.name)), SumInts(active) as real) && average == Average(WindowOf(m.name))
      ensures var t := Track(old(WindowOf(m.name)), StreakOf(old(client.consecutiveScaleDowns), m.name), m.replicas);
              var d := TickDecision(t, m, SumInts(active) as real, targetRequests, required);
              write == d.write && StreakOf(client.consecutiveScaleDowns, m.name) == d.streak
      ensures forall n :: n != m.name ==> WindowOf(n) == old(WindowOf(n))
      ensures forall n :: n != m.name ==> StreakOf(client.consecutiveScaleDowns, n) == StreakOf(old(client.consecutiveScaleDowns), n)
    {
      hide Average, Slide, Ceil, SumInts, StreakOf, EnforceReplicaBounds, Decide;
      var sum := SumActive(active);
      average := Sample(m.name, sum as real);
      label sampled:
      write := client.Scale(m, Ceil(average / targetRequests as real), required);
      assert forall n :: WindowOf(n) == old@sampled(WindowOf(n));
    }

    /** What this tick should do for a model, from the state before it. */
    ghost function Due(e: Entry, active: map<string, seq<int>>): Decision
      requires Valid() && e.targetRequests > 0
      reads this, holder.Keys, client
    {
      var t := Track(WindowOf(e.model.name), StreakOf(client.consecutiveScaleDowns, e.model.name), e.model.replicas);
      TickDecision(t, e.model, Load(active, e.model.name), e.targetRequests, e.required)
    }

    method TickOne(e: Entry, active: map<string, seq<int>>) returns (write: Option<int>, average: real)
      requires Valid() && e.targetRequests > 0 && client !in holder
      modifies this`movingAvgByModel, this`holder, holder.Keys, client
      ensures Valid() && fresh(holder.Keys - old(holder.Keys))
      ensures var n := e.model.name;
              && WindowOf(n) == Slide(old(WindowOf(n)), Load(active, n)) && average == Average(WindowOf(n))
              && write == old(Due(e, active)).write && StreakOf(client.consecutiveScaleDowns, n) == old(Due(e, active)).streak
      ensures forall n :: n != e.model.name ==>
        WindowOf(n) == old(WindowOf(n)) && StreakOf(client.consecutiveScaleDowns, n) == StreakOf(old(client.consecutiveScaleDowns), n)
    {
      hide Average, Slide, SumInts, StreakOf, TickDecision;
      var requests := if e.model.name in active then active[e.model.name] else [];
      write, average := ScaleModel(e.model, requests, e.targetRequests, e.required);
    }

    /** A whole tick: every enabled model gets one sample and one decision, based on its own
        history alone; disabled and unlisted models are left as they are. */
    method TickModels(entries: seq<Entry>, active: map<string, seq<int>>) returns (writes: map<string, Option<int>>, state: map<string, real>)
      requires Valid() && client !in holder
      requires forall i :: 0 <= i < |entries| ==> entries[i].targetRequests > 0
      requires forall i, j :: 0 <= i < j < |entries| ==> entries[i].model.name != entries[j].model.name
      modifies this`movingAvgByModel, this`holder, holder.Keys, client
      ensures Valid() && fresh(holder.Keys - old(holder.Keys))
      ensures forall i :: 0 <= i < |entries| && !entries[i].autoscalingDisabled ==>
        var e := entries[i]; var n := e.model.name;
        && WindowOf(n) == Slide(old(WindowOf(n)), Load(active, n))
        && n in writes && writes[n] == old(Due(e, active)).write
        && StreakOf(client.consecutiveScaleDowns, n) == old(Due(e, active)).streak
        && n in state && state[n] == Average(WindowOf(n))
      ensures forall n :: (forall i :: 0 <= i < |entries| && entries[i].model.name == n ==> entries[i].autoscalingDisabled) ==>
        && WindowOf(n) == old(WindowOf(n)) && n !in writes && n !in state
        && StreakOf(client.consecutiveScaleDowns, n) == StreakOf(old(client.consecutiveScaleDowns), n)
    {
      EnabledMembers(entries);
      hide Average, Slide, StreakOf, TickDecision, Load, Enabled;
      writes, state := map[], map[];
      ghost var done := Enabled([]);
      assert entries[..0] == [];
      for i := 0 to |entries|
        invariant done == Enabled(entries[..i])
        invariant Valid() && fresh(holder.Keys - old(holder.Keys)) && client !in holder
        invariant forall j :: 0 <= j < i && !entries[j].autoscalingDisabled ==>
          var e := entries[j]; var n := e.model.name;
          && WindowOf(n) == Slide(old(WindowOf(n)), Load(active, n))
          && n in writes && writes[n] == old(Due(e, active)).write
          && StreakOf(client.consecutiveScaleDowns, n) == old(Due(e, active)).streak
          && n in state && state[n] == Average(WindowOf(n))
        invariant forall n :: n !in done ==>
          && WindowOf(n) == old(WindowOf(n)) && n !in writes && n !in state
          && StreakOf(client.consecutiveScaleDowns, n) == StreakOf(old(client.consecutiveScaleDowns), n)
      {
        var e := entries[i];
        EnabledNext(entries, i);
        done := Enabled(entries[..i + 1]);
        if !e.autoscalingDisabled {
          var write, average := TickOne(e, active);
          writes, state := writes[e.model.name := write], state[e.model.name := average];
        }
      }
      assert entries[..|entries|] == entries;
    }
  }

  /** A listed model as the tick reads it. */
  datatype Entry = Entry(model: Model, autoscalingDisabled: bool, targetRequests: int, required: int)

  /** The models a tick scales. */
  function Enabled(entries: seq<Entry>): set<string> {
    set i | 0 <= i < |entries| && !entries[i].autoscalingDisabled :: entries[i].model.name
  }

  lemma EnabledMembers(entries: seq<Entry>)
    ensures forall n :: n in Enabled(entries) ==>
              exists i :: 0 <= i < |entries| && entries[i].model.name == n && !entries[i].autoscalingDisabled
  {
  }

  lemma EnabledNext(entries: seq<Entry>, i: nat)
    requires i < |entries|
    requires forall i, j :: 0 <= i < j < |entries| ==> entries[i].model.name != entries[j].model.name
    ensures Enabled(entries[..i + 1]) ==
            Enabled(entries[..i]) + if entries[i].autoscalingDisabled then {} else {entries[i].model.name}
    ensures entries[i].model.name !in Enabled(entries[..i])
  {
    var a, b := entries[..i], entries[..i + 1];
    forall n | n in Enabled(b) ensures n in Enabled(a) || (n == entries[i].model.name && !entries[i].autoscalingDisabled) {
      var k :| 0 <= k < |b| && !b[k].autoscalingDisabled && b[k].model.name == n;
      if k < i { assert a[k] == b[k]; }
    }
    forall n | n in Enabled(a) ensures n in Enabled(b) && n != entries[i].model.name {
      var k :| 0 <= k < |a| && !a[k].autoscalingDisabled && a[k].model.name == n;
      assert b[k] == a[k];
    }
    if !entries[i].autoscalingDisabled { assert b[i] == entries[i]; }
  }

  /** The active requests of a model, summed over the KubeAI instances that report it. */
  function Load(active: map<string, seq<int>>, name: string): real {
    SumInts(if name in active then active[name] else []) as real
  }

  lemma {:induction false} SumIntsConcat(a: seq<int>, b: seq<int>)
    ensures SumInts(a + b) == SumInts(a) + SumInts(b)
  {
    if b == [] {
      assert a + b == a;
    } else {
      SumIntsConcat(a, b[..|b| - 1]);
      assert (a + b)[..|a + b| - 1] == a + b[..|b| - 1];
    }
  }

  /** Every instance's report counts once and in full, and a model no instance reports has no load. */
  lemma LoadInOwnTerms(active: map<string, seq<int>>, name: string, reports: seq<int>, more: int)
    ensures name !in active ==> Load(active, name) == 0.0
    ensures Load(active[name := []], name) == 0.0
    ensures Load(active[name := reports + [more]], name) == Load(active[name := reports], name) + more as real
  {
    assert (reports + [more])[..|reports|] == reports;
  }

  /** The order of the instances does not matter: one report may come first as well as last. */
  lemma LoadFromParts(active: map<string, seq<int>>, name: string, first: seq<int>, second: seq<int>)
    ensures Load(active[name := first + second], name) == Load(active[name := first], name) + Load(active[name := second], name)
  {
    SumIntsConcat(first, second);
  }

  // ----- idle models reach their minimum

  /** `n` ticks without load. */
  function IdleTicks(t: Track, m: Model, targetRequests: int, required: int, n: nat): (r: Track)
    requires t.window != [] && targetRequests > 0
    ensures |r.window| == |t.window| && (t.streak >= 0 ==> r.streak >= 0)
  {
    if n == 0 then t else Tick(IdleTicks(t, m, targetRequests, required, n - 1), m, 0.0, targetRequests, required)
  }

  lemma {:induction false} IdleWindow(t: Track, m: Model, targetRequests: int, required: int, n: nat)
    requires t.window != [] && targetRequests > 0
    ensures IdleTicks(t, m, targetRequests, required, n).window == SlideAll(t.window, Constant(n, 0.0))
  {
    if n > 0 {
      IdleWindow(t, m, targetRequests, required, n - 1);
      assert Constant(n, 0.0)[..n - 1] == Constant(n - 1, 0.0);
    }
  }

  lemma CeilOfZero(targetRequests: int)
    requires targetRequests > 0
    ensures Ceil(0.0 / targetRequests as real) == 0
  {
    assert 0.0 / targetRequests as real == 0.0;
  }

  /** From the tick that fills the window with zeros on, the target is the minimum. */
  lemma IdleTarget(t: Track, m: Model, targetRequests: int, required: int, n: nat)
    requires t.window != [] && targetRequests > 0 && SaneBounds(m) && n + 1 >= |t.window|
    ensures var before := IdleTicks(t, m, targetRequests, required, n);
            EnforceReplicaBounds(Wanted(Slide(before.window, 0.0), targetRequests), m) == m.minReplicas
  {
    IdleWindow(t, m, targetRequests, required, n + 1);
    ZeroSamplesZeroAverage(t.window, Constant(n + 1, 0.0));
    CeilOfZero(targetRequests);
  }

  /** A tick whose target is the minimum reaches it, or adds to a streak still short. */
  lemma TickTowardsMinimum(t: Track, m: Model, targetRequests: int, required: int)
    requires t.window != [] && targetRequests > 0
    requires EnforceReplicaBounds(Wanted(Slide(t.window, 0.0), targetRequests), m) == m.minReplicas
    ensures var r := Tick(t, m, 0.0, targetRequests, required);
            Existing(r.replicas) == m.minReplicas || (t.streak < required && r.streak == t.streak + 1 && Existing(t.replicas) > m.minReplicas)
  {
    hide Wanted, Slide, EnforceReplicaBounds;
  }

  /** Once the window is all zeros, `k` more ticks bring the minimum or a streak of k. */
  lemma {:induction false} IdleStreak(t: Track, m: Model, targetRequests: int, required: int, k: nat)
    requires t.window != [] && targetRequests > 0 && SaneBounds(m) && t.streak >= 0
    ensures var r := IdleTicks(t, m, targetRequests, required, |t.window| - 1 + k);
            k > 0 ==> Existing(r.replicas) == m.minReplicas || (k <= required && r.streak >= k)
  {
    if k > 0 {
      hide Tick, SaneBounds;
      var n := |t.window| - 1 + (k - 1);
      IdleStreak(t, m, targetRequests, required, k - 1);
      IdleTarget(t, m, targetRequests, required, n);
      TickTowardsMinimum(IdleTicks(t, m, targetRequests, required, n), m, targetRequests, required);
    }
  }

  /** With load zero, the replicas are at the minimum after window + required ticks, and stay
      there, whatever the window, streak and replicas were. */
  lemma {:induction false} IdleReachesMinimum(t: Track, m: Model, targetRequests: int, required: int, n: nat)
    requires t.window != [] && targetRequests > 0 && SaneBounds(m) && t.streak >= 0
    requires n >= |t.window| + Max(required, 0)
    ensures Existing(IdleTicks(t, m, targetRequests, required, n).replicas) == m.minReplicas
  {
    IdleStreak(t, m, targetRequests, required, n - |t.window| + 1);
  }
}
