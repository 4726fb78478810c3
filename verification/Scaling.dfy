/** Scaling decisions and replica bounds (internal/modelclient/scale.go,
    internal/config/system.go, applyAutoscalingReplicaBounds of
    internal/modelcontroller/model_controller.go). */
module Scaling {
  import opened Wrappers

  // ----- configuration arithmetic

  function Ceil(x: real): int { -((-x).Floor) }

  lemma CeilBounds(x: real)
    ensures x <= Ceil(x) as real < x + 1.0
  {
  }

  const SECOND := 1_000_000_000

  /** How many scale-down requests in a row must precede a scale-down.  Durations are in nanoseconds. */
  function RequiredConsecutiveScaleDowns(scaleDownDelaySeconds: int, interval: int): int
    requires interval > 0
  {
    Ceil((scaleDownDelaySeconds * SECOND) as real / interval as real)
  }

  function AverageWindowCount(timeWindow: int, interval: int): int
    requires interval > 0
  {
    Ceil(timeWindow as real / interval as real)
  }

  lemma CeilOfQuotient(a: int, b: int)
    requires b > 0
    ensures var n := Ceil(a as real / b as real); a <= n * b < a + b
  {
    var q := a as real / b as real;
    var n := Ceil(q);
    hide Ceil;
    CeilBounds(q);
    QuotientTimes(a as real, b as real);
    TimesBounds(q, n as real, b as real, a as real);
    RealProduct(n, b);
    InBetween(n * b, a, b);
  }

  lemma InBetween(m: int, a: int, b: int)
    requires a as real <= m as real < a as real + b as real
    ensures a <= m < a + b
  {
  }

  lemma QuotientTimes(a: real, b: real)
    requires b > 0.0
    ensures (a / b) * b == a
  {
  }

  lemma TimesBounds(q: real, n: real, b: real, a: real)
    requires q <= n < q + 1.0 && b > 0.0 && q * b == a
    ensures a <= n * b < a + b
  {
    var x, y := n - q, n * b;
    Distribute(q, x, n, b);
    FractionOf(x, b);
    assert y == a + x * b;
  }

  lemma Distribute(q: real, x: real, n: real, b: real)
    requires n == q + x
    ensures n * b == q * b + x * b
  {
  }

  lemma FractionOf(x: real, b: real)
    requires 0.0 <= x < 1.0 && b > 0.0
    ensures 0.0 <= x * b < b
  {
  }

  /** The required number of intervals is the least that covers the scale-down delay. */
  lemma RequiredCoversDelay(scaleDownDelaySeconds: int, interval: int)
    requires interval > 0
    ensures var n := RequiredConsecutiveScaleDowns(scaleDownDelaySeconds, interval);
            scaleDownDelaySeconds * 1_000_000_000 <= n * interval < scaleDownDelaySeconds * 1_000_000_000 + interval
  {
    CeilOfQuotient(scaleDownDelaySeconds * SECOND, interval);
  }

  /** The window is the least number of intervals that covers the time window. */
  lemma WindowCoversTimeWindow(timeWindow: int, interval: int)
    requires interval > 0
    ensures timeWindow <= AverageWindowCount(timeWindow, interval) * interval < timeWindow + interval
  {
    CeilOfQuotient(timeWindow, interval);
  }

  // ----- one decision

  datatype Model = Model(name: string, minReplicas: int, maxReplicas: Option<int>, replicas: Option<int>)

  function Existing(replicas: Option<int>): int { if replicas.Some? then replicas.value else 0 }

  function EnforceReplicaBounds(replicas: int, m: Model): int {
    if m.maxReplicas.Some? && replicas > m.maxReplicas.value then m.maxReplicas.value
    else if replicas < m.minReplicas then m.minReplicas
    else replicas
  }

  datatype Decision = Decision(streak: int, write: Option<int>)

  /** A scale-down is written only once the streak has reached `required`; any other request
      resets the streak. */
  function Decide(streak: int, existing: int, target: int, required: int): Decision {
    if existing > target then
      if streak < required then Decision(streak + 1, None) else Decision(streak, Some(target))
    else Decision(0, if existing == target then None else Some(target))
  }

  function StreakOf(streaks: map<string, int>, name: string): int { if name in streaks then streaks[name] else 0 }

  class ModelClient {
    var consecutiveScaleDowns: map<string, int>

    constructor ()
      ensures consecutiveScaleDowns == map[]
    {
      consecutiveScaleDowns := map[];
    }

    /** Returns the replicas sent to the scale subresource, if any.  The streak does not depend
        on whether that update succeeds. */
    method Scale(m: Model, replicas: int, requiredConsecutiveScaleDowns: int) returns (write: Option<int>)
      modifies this
      ensures var existing := if m.replicas.Some? then m.replicas.value else 0;
              var d := Decide(StreakOf(old(consecutiveScaleDowns), m.name), existing,
                              EnforceReplicaBounds(replicas, m), requiredConsecutiveScaleDowns);
              write == d.write && StreakOf(consecutiveScaleDowns, m.name) == d.streak
      ensures forall other :: other != m.name ==>
        StreakOf(consecutiveScaleDowns, other) == StreakOf(old(consecutiveScaleDowns), other)
    {
      var target := EnforceReplicaBounds(replicas, m);
      var existing := 0;
      if m.replicas.Some? { existing := m.replicas.value; }
      if existing > target {
        var consec := StreakOf(consecutiveScaleDowns, m.name);
        if consec < requiredConsecutiveScaleDowns {
          consecutiveScaleDowns := consecutiveScaleDowns[m.name := consec + 1];
          return None;
        }
      } else {
        consecutiveScaleDowns := consecutiveScaleDowns[m.name := 0];
      }
      if existing != target { return Some(target); }
      write := None;
    }

    /** Returns the replicas sent to the scale subresource, if any. */
    method ScaleAtLeastOneReplica(m: Model, autoscalingDisabled: bool) returns (write: Option<int>)
      ensures write == if !autoscalingDisabled && (m.replicas == None || m.replicas == Some(0)) then Some(1) else None
    {
      if autoscalingDisabled { return None; }
      var replicas := 0;
      if m.replicas.Some? { replicas := m.replicas.value; }
      if replicas == 0 { return Some(1); }
      write := None;
    }
  }

  // ----- the scale-down delay, over every run of calls

  /** A call of Scale: `target` is already within the bounds.  Times are in nanoseconds. */
  datatype Call = Call(model: string, time: int, existing: int, target: int, required: int)

  predicate AsksDown(c: Call) { c.existing > c.target }

  /** The streak counters after a run of calls for any number of models. */
  function Streaks(calls: seq<Call>): map<string, int> {
    if calls == [] then map[]
    else
      var before, c := Streaks(calls[..|calls| - 1]), calls[|calls| - 1];
      before[c.model := Decide(StreakOf(before, c.model), c.existing, c.target, c.required).streak]
  }

  /** How many of the latest calls for `m`, without interruption, asked for a decrease. */
  function TrailingDowns(calls: seq<Call>, m: string): nat {
    if calls == [] then 0
    else
      var front, c := calls[..|calls| - 1], calls[|calls| - 1];
      if c.model != m then TrailingDowns(front, m)
      else if AsksDown(c) then TrailingDowns(front, m) + 1
      else 0
  }

  lemma {:induction false} StreakNeverExceedsTrailingDowns(calls: seq<Call>, m: string)
    ensures StreakOf(Streaks(calls), m) <= TrailingDowns(calls, m)
  {
    if calls != [] { StreakNeverExceedsTrailingDowns(calls[..|calls| - 1], m); }
  }

  /** With one required number throughout, the counter is exactly the uninterrupted requests for
      a decrease, up to that number: writing a decrease does not reset it. */
  lemma {:induction false} StreakIsTrailingDowns(calls: seq<Call>, m: string, required: int)
    requires forall i :: 0 <= i < |calls| && calls[i].model == m ==> calls[i].required == required
    ensures StreakOf(Streaks(calls), m) == Min(TrailingDowns(calls, m), Max(required, 0))
  {
    if calls != [] { StreakIsTrailingDowns(calls[..|calls| - 1], m, required); }
  }

  /** What a call writes, from the calls before it: an increase at once, a decrease exactly when
      as many requests for one preceded it without interruption as are required. */
  lemma WrittenIff(calls: seq<Call>, c: Call)
    requires forall i :: 0 <= i < |calls| && calls[i].model == c.model ==> calls[i].required == c.required
    ensures var write := Decide(StreakOf(Streaks(calls), c.model), c.existing, c.target, c.required).write;
            && (write.Some? <==> c.target > c.existing || (c.target < c.existing && TrailingDowns(calls, c.model) >= c.required))
            && (write.Some? ==> write.value == c.target)
  {
    StreakIsTrailingDowns(calls, c.model, c.required);
  }

  /** Calls for one model are at least `interval` apart. */
  ghost predicate Spaced(calls: seq<Call>, interval: int) {
    forall i, j :: 0 <= i < j < |calls| && calls[i].model == calls[j].model ==> calls[i].time + interval <= calls[j].time
  }

  /** Every call for `m` from index `i` on asked for a decrease. */
  ghost predicate DownSince(calls: seq<Call>, m: string, i: nat) {
    forall j :: i <= j < |calls| && calls[j].model == m ==> AsksDown(calls[j])
  }

  /** The call that began the last `k` requests for a decrease, and the time since then. */
  lemma {:induction false} StreakStart(calls: seq<Call>, m: string, k: nat, interval: int, now: int) returns (i: nat)
    requires 1 <= k <= TrailingDowns(calls, m) && Spaced(calls, interval)
    requires forall j :: 0 <= j < |calls| && calls[j].model == m ==> calls[j].time + interval <= now
    ensures i < |calls| && calls[i].model == m && DownSince(calls, m, i)
    ensures now - calls[i].time >= k * interval
  {
    var front, c := calls[..|calls| - 1], calls[|calls| - 1];
    if c.model != m {
      i := StreakStart(front, m, k, interval, now);
    } else if k == 1 {
      i := |calls| - 1;
    } else {
      i := StreakStart(front, m, k - 1, interval, c.time);
      assert now - c.time >= interval;
      assert k * interval == (k - 1) * interval + interval;
    }
  }

  /** In every run of calls at least `interval` apart, a decrease is written only after as many
      uninterrupted requests for a decrease as are required, so only once the scale-down delay
      has passed since the first of them. */
  lemma {:induction false} ScaleDownDelayed(calls: seq<Call>, c: Call, scaleDownDelaySeconds: int, interval: int) returns (i: nat)
    requires interval > 0 && Spaced(calls + [c], interval)
    requires c.required == RequiredConsecutiveScaleDowns(scaleDownDelaySeconds, interval) && c.required >= 1
    requires var d := Decide(StreakOf(Streaks(calls), c.model), c.existing, c.target, c.required);
             d.write.Some? && d.write.value < c.existing
    ensures TrailingDowns(calls, c.model) >= c.required
    ensures i < |calls| && calls[i].model == c.model && DownSince(calls + [c], c.model, i)
    ensures c.time - calls[i].time >= scaleDownDelaySeconds * 1_000_000_000
  {
    StreakNeverExceedsTrailingDowns(calls, c.model);
    RequiredCoversDelay(scaleDownDelaySeconds, interval);
    assert forall j :: 0 <= j < |calls| ==> (calls + [c])[j] == calls[j];
    assert (calls + [c])[|calls|] == c;
    assert Spaced(calls, interval) by {
      forall i, j | 0 <= i < j < |calls| && calls[i].model == calls[j].model
        ensures calls[i].time + interval <= calls[j].time
      {
        assert (calls + [c])[i].time + interval <= (calls + [c])[j].time;
      }
    }
    forall j | 0 <= j < |calls| && calls[j].model == c.model ensures calls[j].time + interval <= c.time {
      assert (calls + [c])[j].time + interval <= (calls + [c])[|calls|].time;
    }
    i := StreakStart(calls, c.model, c.required, interval, c.time);
  }

  // ----- replica bounds under three writers

  /** 0 <= min <= max and 1 <= max, as the resource validation demands. */
  predicate SaneBounds(m: Model) {
    0 <= m.minReplicas && (m.maxReplicas.Some? ==> m.minReplicas <= m.maxReplicas.value && 1 <= m.maxReplicas.value)
  }

  predicate InBounds(r: int, m: Model) { m.minReplicas <= r && (m.maxReplicas.Some? ==> r <= m.maxReplicas.value) }

  /** Of all values within bounds, the enforced one is nearest to the value asked for. */
  lemma EnforcedIsNearest(r: int, m: Model, x: int)
    requires SaneBounds(m) && InBounds(x, m)
    ensures var e := EnforceReplicaBounds(r, m);
            InBounds(e, m) && Max(e - r, r - e) <= Max(x - r, r - x)
  {
  }

  /** applyAutoscalingReplicaBounds: the replicas to write back, if they change. */
  function Clamp(m: Model): Option<int> {
    if m.replicas.None? || m.replicas.value < m.minReplicas then Some(m.minReplicas)
    else if m.maxReplicas.Some? && m.replicas.value > m.maxReplicas.value then m.maxReplicas
    else None
  }

  function Written(m: Model, write: Option<int>): Model { if write.Some? then m.(replicas := write) else m }

  /** Scale tests the upper bound first, the controller the lower: they agree on every value
      exactly when no value lies above the maximum and below the minimum. */
  lemma ClampAgreesWithEnforceIff(m: Model)
    ensures (forall r :: Existing(Written(m.(replicas := Some(r)), Clamp(m.(replicas := Some(r)))).replicas) == EnforceReplicaBounds(r, m))
            <==> (m.maxReplicas.Some? ==> m.minReplicas <= m.maxReplicas.value + 1)
  {
    if m.maxReplicas.Some? && m.minReplicas > m.maxReplicas.value + 1 {
      var r := m.maxReplicas.value + 1;
      assert Existing(Written(m.(replicas := Some(r)), Clamp(m.(replicas := Some(r)))).replicas) != EnforceReplicaBounds(r, m);
    }
  }

  /** The clamp reaches its fixpoint in one step, and leaves alone whatever Scale writes. */
  lemma ClampIsIdempotent(m: Model)
    requires SaneBounds(m)
    ensures Clamp(Written(m, Clamp(m))) == None && InBounds(Existing(Written(m, Clamp(m)).replicas), m)
  {
  }

  /** What the controller leaves: set replicas end up as near as any value within the bounds, unset
      ones at the minimum, and it writes only what is not so already. */
  lemma ClampedInOwnTerms(m: Model, x: int)
    requires m.minReplicas <= x && (m.maxReplicas.Some? ==> x <= m.maxReplicas.value)
    ensures var r := Written(m, Clamp(m)).replicas;
            && r.Some? && m.minReplicas <= r.value && (m.maxReplicas.Some? ==> r.value <= m.maxReplicas.value)
            && (m.replicas.None? ==> r.value == m.minReplicas)
            && (m.replicas.Some? ==>
                  Max(r.value - m.replicas.value, m.replicas.value - r.value) <= Max(x - m.replicas.value, m.replicas.value - x))
            && (Clamp(m).Some? <==> r != m.replicas)
  {
  }

  lemma ClampKeepsScaleWrites(m: Model, wanted: int)
    requires SaneBounds(m)
    ensures Clamp(m.(replicas := Some(EnforceReplicaBounds(wanted, m)))) == None
  {
  }

  datatype Writer = Autoscaler(wanted: int, streak: int, required: int) | AtLeastOne | Controller

  /** What a writer sends after reading the model. */
  function Sends(w: Writer, m: Model): Option<int> {
    match w
    case Autoscaler(wanted, streak, required) =>
      Decide(streak, Existing(m.replicas), EnforceReplicaBounds(wanted, m), required).write
    case AtLeastOne => if Existing(m.replicas) == 0 then Some(1) else None
    case Controller => Clamp(m)
  }

  /** Writers read and write in separate steps, so a write may be based on an old read. */
  datatype World = World(model: Model, pending: map<nat, Option<int>>)

  datatype Event = Read(id: nat, writer: Writer) | Write(id: nat)

  function Happens(s: World, e: Event): World {
    match e
    case Read(id, w) => s.(pending := s.pending[id := Sends(w, s.model)])
    case Write(id) => if id in s.pending then s.(model := Written(s.model, s.pending[id])) else s
  }

  function HappenAll(s: World, events: seq<Event>): World {
    if events == [] then s else Happens(HappenAll(s, events[..|events| - 1]), events[|events| - 1])
  }

  /** The replicas are set and within bounds, and so is everything about to be written. */
  ghost predicate AllInBounds(s: World, m: Model) {
    && s.model == m.(replicas := s.model.replicas)
    && s.model.replicas.Some? && InBounds(s.model.replicas.value, m)
    && forall id :: id in s.pending && s.pending[id].Some? ==> InBounds(s.pending[id].value, m)
  }

  /** Once set and in bounds, the replicas stay so under every interleaving of the writers. */
  lemma {:induction false} ReplicasStayInBounds(m: Model, s: World, events: seq<Event>)
    requires SaneBounds(m) && AllInBounds(s, m)
    ensures AllInBounds(HappenAll(s, events), m)
  {
    if events != [] {
      var front, e := events[..|events| - 1], events[|events| - 1];
      ReplicasStayInBounds(m, s, front);
    }
  }

  /** From unset replicas the scale-from-zero writer keeps the bounds exactly when min is at most one. */
  lemma UnsetReplicasIff(m: Model)
    requires SaneBounds(m) && m.replicas.None?
    ensures InBounds(Sends(AtLeastOne, m).value, m) <==> m.minReplicas <= 1
  {
  }

  /** With a minimum of two and unset replicas, the write of one is out of bounds. */
  lemma UnsetReplicasExample() returns (m: Model)
    ensures SaneBounds(m) && m.replicas.None? && Sends(AtLeastOne, m).Some? && !InBounds(Sends(AtLeastOne, m).value, m)
  {
    m := Model("default/m", 2, None, None);
    UnsetReplicasIff(m);
  }
}
