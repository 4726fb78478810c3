/** An endpoint group of the load balancer (internal/loadbalancer/group.go,
    balance_chwbl.go, balance_least_load.go): the hash ring kept in step with the
    endpoints, address selection, and in-flight leases. */
module Group {
  import opened Wrappers
  import opened HashRing
  import RingHistory
  import opened LoadBounds

  /** atomic.Int64.  `owner` names the endpoint it was made for. */
  class Counter {
    var value: int
    ghost const owner: string

    constructor (ghost owner: string)
      ensures value == 0 && this.owner == owner
    {
      value := 0;
      this.owner := owner;
    }
  }

  /** What a reconcile observes of a Pod. */
  datatype Observed = Observed(address: string, adapters: set<string>)

  datatype Endpoint = Endpoint(address: string, inFlight: Counter, adapters: set<string>)

  /** A leased address and the counter to decrement on release. */
  datatype Lease = Lease(address: string, inFlight: Counter)

  /** What a lookup on the ring comes to. */
  datatype Lookup = Found(name: string) | NotFound | Panicked

  datatype Strategy = LeastLoad | PrefixHash(key: string, loadFactor: real)

  /** The endpoint may take the request: the empty adapter name asks for none. */
  predicate Serves(e: Endpoint, adapter: string) { adapter == "" || adapter in e.adapters }

  /** Without an adapter, what the strategy may choose from the loads. */
  ghost predicate Chooses(strategy: Strategy, loads: map<string, int>, total: int, name: string) {
    match strategy
    case LeastLoad => LeastPick(loads, name)
    case PrefixHash(_, factor) => |loads| > 0 && BoundedPick(loads, total, factor, name)
  }

  method InsertHash(r: seq<Hash>, h: Hash) returns (r': seq<Hash>)
    requires NonDecreasing(r)
    ensures NonDecreasing(r') && multiset(r') == multiset(r) + multiset{h}
  {
    var k := |r|;
    while k > 0 && h < r[k - 1]
      invariant 0 <= k <= |r|
      invariant forall j :: k <= j < |r| ==> h < r[j]
    {
      k := k - 1;
    }
    InsertAt(r, h, k);
    r' := r[..k] + [h] + r[k..];
  }

  lemma InsertAt(r: seq<Hash>, h: Hash, k: nat)
    requires NonDecreasing(r) && k <= |r| && (k > 0 ==> r[k - 1] <= h) && (k < |r| ==> h <= r[k])
    ensures NonDecreasing(r[..k] + [h] + r[k..])
    ensures multiset(r[..k] + [h] + r[k..]) == multiset(r) + multiset{h}
  {
    var front, back := r[..k], r[k..];
    assert r == front + back;
    assert NonDecreasing(front + [h]);
    JoinOrdered(front + [h], back);
    hide NonDecreasing;
    InsertMultiset(front, back, h);
  }

  lemma InsertMultiset(a: seq<Hash>, b: seq<Hash>, h: Hash)
    ensures multiset(a + [h] + b) == multiset(a + b) + multiset{h}
  {
  }

  lemma RemoveAt(s: seq<Hash>, k: nat)
    requires NonDecreasing(s) && k < |s|
    ensures NonDecreasing(s[..k] + s[k + 1..])
    ensures multiset(s[..k] + s[k + 1..]) == multiset(s) - multiset{s[k]}
  {
    var front, back := s[..k], s[k + 1..];
    JoinOrdered(front, back);
    assert s == front + [s[k]] + back;
    hide NonDecreasing;
    InsertMultiset(front, back, s[k]);
  }

  lemma RemoveAbsent(s: seq<Hash>, h: Hash)
    requires forall k :: 0 <= k < |s| ==> s[k] != h
    ensures multiset(s) == multiset(s) - multiset{h}
  {
    assert h !in s;
    assert h !in multiset(s);
  }

  lemma JoinOrdered(a: seq<Hash>, b: seq<Hash>)
    requires NonDecreasing(a) && NonDecreasing(b)
    requires a != [] && b != [] ==> a[|a| - 1] <= b[0]
    ensures NonDecreasing(a + b)
  {
    forall i, j | 0 <= i < j < |a + b| ensures (a + b)[i] <= (a + b)[j] {
      if i < |a| <= j {
        assert a[i] <= a[|a| - 1];
        assert b[0] <= b[j - |a|];
      }
    }
  }

  method SortHashes(s: seq<Hash>) returns (r: seq<Hash>)
    ensures NonDecreasing(r) && multiset(r) == multiset(s)
  {
    r := [];
    for i := 0 to |s|
      invariant NonDecreasing(r) && multiset(r) == multiset(s[..i])
    {
      assert s[..i + 1] == s[..i] + [s[i]];
      r := InsertHash(r, s[i]);
    }
    assert s[..|s|] == s;
  }

  class EndpointGroup {
    const hash: HashFn
    const replication: int
    var endpoints: map<string, Endpoint>
    var totalInFlight: int
    var chwblHashes: map<Hash, string>
    var chwblSortedHashes: seq<Hash>

    constructor (hash: HashFn, replication: int)
      ensures this.hash == hash && this.replication == replication
      ensures endpoints == map[] && totalInFlight == 0 && Valid() && Canonical()
      ensures Ring() == RingHistory.NO_RING && forall all: set<string> :: Reached(all)
    {
      this.hash, this.replication := hash, replication;
      endpoints, totalInFlight := map[], 0;
      chwblHashes, chwblSortedHashes := map[], [];
      new;
      forall all: set<string> ensures Reached(all) { RingHistory.NoHistory(hash, Count(), all); }
    }

    function Count(): nat { if replication < 0 then 0 else replication }

    /** What holds whatever the hash function: the array is ordered, the map holds nothing that
        is not in it, and no counter is shared. */
    ghost predicate Valid() reads `endpoints, `chwblHashes, `chwblSortedHashes {
      && NonDecreasing(chwblSortedHashes)
      && RingHistory.Backed(hash, Count(), Ring())
      && forall name :: name in endpoints ==> endpoints[name].inFlight.owner == name
    }

    /** The ring is the one of the current endpoints. */
    ghost predicate Canonical() reads `endpoints, `chwblHashes, `chwblSortedHashes {
      RingOf(hash, endpoints.Keys, Count(), chwblHashes, chwblSortedHashes)
    }

    /** The ring without the order of its array. */
    ghost function Ring(): RingHistory.Ring reads `endpoints, `chwblHashes, `chwblSortedHashes {
      RingHistory.Ring(endpoints.Keys, chwblHashes, multiset(chwblSortedHashes))
    }

    /** Some history of joins and leaves among `all` has made this ring. */
    ghost predicate Reached(all: set<string>) reads `endpoints, `chwblHashes, `chwblSortedHashes {
      RingHistory.Reaches(hash, Count(), all, Ring())
    }

    // ----- the ring

    method ChwblAddEndpoint(name: string)
      modifies this`chwblHashes, this`chwblSortedHashes
      ensures chwblHashes == old(chwblHashes) + Owned(Points(hash, name, Count()), name)
      ensures NonDecreasing(chwblSortedHashes)
      ensures multiset(chwblSortedHashes) == multiset(old(chwblSortedHashes)) + multiset(Points(hash, name, Count()))
      ensures |chwblSortedHashes| == |old(chwblSortedHashes)| + Max(replication, 0)
      ensures forall i: nat :: i < replication ==>
                var h := hash(name + Decimal(i)); h in chwblHashes && chwblHashes[h] == name && h in chwblSortedHashes
    {
      AddPoints(name);
      WherePointsAre(name, old(chwblHashes), old(chwblSortedHashes));
    }

    /** The points of a name are the hashes of the name followed by each replica number. */
    lemma WherePointsAre(name: string, owner: map<Hash, string>, sorted: seq<Hash>)
      requires chwblHashes == owner + Owned(Points(hash, name, Count()), name)
      requires multiset(chwblSortedHashes) == multiset(sorted) + multiset(Points(hash, name, Count()))
      ensures |chwblSortedHashes| == |sorted| + Max(replication, 0)
      ensures forall i: nat :: i < replication ==>
                var h := hash(name + Decimal(i)); h in chwblHashes && chwblHashes[h] == name && h in chwblSortedHashes
    {
      var points := Points(hash, name, Count());
      assert |multiset(chwblSortedHashes)| == |multiset(sorted)| + |multiset(points)|;
      forall i: nat | i < replication ensures hash(name + Decimal(i)) in points { assert points[i] == VNode(hash, name, i); }
      forall h | h in points ensures h in chwblSortedHashes && h in Owned(points, name) {
        assert h in multiset(points) && h in multiset(chwblSortedHashes);
      }
    }

    method AddPoints(name: string)
      modifies this`chwblHashes, this`chwblSortedHashes
      ensures chwblHashes == old(chwblHashes) + Owned(Points(hash, name, Count()), name)
      ensures NonDecreasing(chwblSortedHashes)
      ensures multiset(chwblSortedHashes) == multiset(old(chwblSortedHashes)) + multiset(Points(hash, name, Count()))
    {
      var i := 0;
      while i < replication
        invariant 0 <= i <= Count()
        invariant chwblHashes == old(chwblHashes) + Owned(Points(hash, name, i), name)
        invariant chwblSortedHashes == old(chwblSortedHashes) + Points(hash, name, i)
      {
        var h := VNode(hash, name, i);
        NextPoint(hash, name, i);
        OwnNextPoint(old(chwblHashes), Points(hash, name, i), h, name);
        chwblHashes := chwblHashes[h := name];
        chwblSortedHashes := chwblSortedHashes + [h];
        i := i + 1;
      }
      chwblSortedHashes := SortHashes(chwblSortedHashes);
    }

    method ChwblDeleteSortedHash(val: Hash)
      requires NonDecreasing(chwblSortedHashes)
      modifies this`chwblSortedHashes
      ensures NonDecreasing(chwblSortedHashes)
      ensures multiset(chwblSortedHashes) == multiset(old(chwblSortedHashes)) - multiset{val}
    {
      var s := chwblSortedHashes;
      var idx, left, right := -1, 0, |s| - 1;
      while left <= right && idx == -1
        invariant 0 <= left <= |s| && -1 <= right < |s|
        invariant idx == -1 || (0 <= idx < |s| && s[idx] == val)
        invariant idx == -1 ==> forall k :: 0 <= k < |s| && !(left <= k <= right) ==> s[k] != val
        decreases if idx == -1 then 1 else 0, right - left
      {
        var middle := (left + right) / 2;
        if s[middle] == val {
          idx := middle;
        } else if s[middle] < val {
          left := middle + 1;
        } else {
          right := middle - 1;
        }
      }
      if idx != -1 {
        RemoveAt(s, idx);
        chwblSortedHashes := s[..idx] + s[idx + 1..];
      } else {
        RemoveAbsent(s, val);
      }
    }

    method ChwblRemoveEndpoint(name: string)
      requires NonDecreasing(chwblSortedHashes)
      modifies this`chwblHashes, this`chwblSortedHashes
      ensures chwblHashes == old(chwblHashes) - Elements(Points(hash, name, Count()))
      ensures NonDecreasing(chwblSortedHashes)
      ensures multiset(chwblSortedHashes) == multiset(old(chwblSortedHashes)) - multiset(Points(hash, name, Count()))
    {
      var i := 0;
      while i < replication
        invariant 0 <= i <= Count()
        invariant chwblHashes == old(chwblHashes) - Elements(Points(hash, name, i))
        invariant NonDecreasing(chwblSortedHashes)
        invariant multiset(chwblSortedHashes) == multiset(old(chwblSortedHashes)) - multiset(Points(hash, name, i))
      {
        var h := VNode(hash, name, i);
        NextPoint(hash, name, i);
        DropNextPoint(old(chwblHashes), Points(hash, name, i), h);
        chwblHashes := chwblHashes - {h};
        ChwblDeleteSortedHash(h);
        i := i + 1;
      }
    }

    /** Binary search for the clockwise successor of `key`, with wrap-around. */
    method ChwblSearch(key: Hash) returns (h: Hash, idx: nat)
      requires NonDecreasing(chwblSortedHashes) && chwblSortedHashes != []
      ensures IsStart(chwblSortedHashes, key, idx) && h == chwblSortedHashes[idx]
    {
      var s := chwblSortedHashes;
      var i, j := 0, |s|;
      while i < j
        invariant 0 <= i <= j <= |s|
        invariant forall k :: 0 <= k < i ==> s[k] < key
        invariant forall k :: j <= k < |s| ==> key <= s[k]
      {
        var m := (i + j) / 2;
        if s[m] >= key { j := m; } else { i := m + 1; }
      }
      idx := if i >= |s| then 0 else i;
      h := s[idx];
    }

    // ----- selection

    /** The endpoints that can take a request for `adapter`. */
    ghost function Serving(adapter: string): set<string> reads this {
      set name | name in endpoints && Serves(endpoints[name], adapter)
    }

    ghost function Counters(): set<Counter> reads this { set name | name in endpoints :: endpoints[name].inFlight }

    ghost function Load(name: string): int
      requires name in endpoints
      reads this, Counters()
    {
      endpoints[name].inFlight.value
    }

    /** Of those, the endpoints that pass the load test. */
    ghost function WithinLoad(adapter: string, loadFactor: real): set<string>
      reads this, Counters()
    {
      set name | name in Serving(adapter) && LoadOK(Load(name), totalInFlight, |endpoints|, loadFactor)
    }

    /** The endpoints a lookup chooses from. */
    ghost function Candidates(adapter: string, loadFactor: real): set<string>
      reads this, Counters()
    {
      if WithinLoad(adapter, loadFactor) != {} then WithinLoad(adapter, loadFactor) else Serving(adapter)
    }

    /** Where a lookup starts, and the owner of that entry, whatever its load: the endpoint the
        key belongs to. */
    method ChwblInitial(key: string) returns (name0: Option<string>, i0: nat)
      requires Valid() && |chwblHashes| > 0
      ensures IsStart(chwblSortedHashes, hash(key), i0)
      ensures Canonical() ==> name0.Some? && Nearest(hash, endpoints.Keys, Count(), hash(key), name0.value)
    {
      SomeNode();
      var hash0, idx := ChwblSearch(hash(key));
      name0, i0 := if hash0 in chwblHashes then Some(chwblHashes[hash0]) else None, idx;
      if Canonical() {
        EntryIsOwned(i0);
        FirstOwner(endpoints.Keys, hash(key), i0, 0, name0.value);
      }
    }

    /** Consistent hashing with bounded loads: the nearest virtual node of an endpoint that
        serves the adapter and is within the load bound; failing that, the nearest of one that
        serves the adapter.  The lookup panics only where `CanPanic` says it can, and then for
        every adapter that no endpoint has. */
    method ChwblGetAddr(key: string, loadFactor: real, adapter: string) returns (r: Lookup)
      requires Valid()
      ensures r.Panicked? ==> RingHistory.CanPanic(Ring())
      ensures RingHistory.CanPanic(Ring()) && Serving(adapter) == {} ==> r.Panicked?
      ensures r.Found? ==> r.name in endpoints && (adapter != "" ==> adapter in endpoints[r.name].adapters)
      ensures Canonical() && replication >= 1 ==>
                (r.Found? <==> exists n :: n in endpoints && (adapter == "" || adapter in endpoints[n].adapters))
      ensures r.Found? ==> r.name in Serving(adapter)
      ensures Canonical() ==> !r.Panicked? && (r.NotFound? <==> replication <= 0 || Serving(adapter) == {})
      ensures Canonical() && r.Found? ==> Nearest(hash, Candidates(adapter, loadFactor), Count(), hash(key), r.name)
    {
      WhoServes(adapter);
      hide Valid, Canonical, Nearest, Walked, Selects, Serving, WithinLoad, RingHistory.EveryPointOwned;
      if |chwblHashes| == 0 {
        if Canonical() { NoNodes(adapter); }
        return NotFound;
      }
      var name0, i0 := ChwblInitial(key);
      ghost var within, serving := WithinLoad(adapter, loadFactor), Serving(adapter);
      SelectionSets(adapter, loadFactor, within, serving);
      r := WalkRing(i0, loadFactor, adapter, within, serving);
      SelectionSets(adapter, loadFactor, within, serving);
      LookupOutcome(i0, hash(key), within, serving, r);
      WhoServes(adapter);
    }

    /** The walk stopped at its m-th entry, or came back to it as the default. */
    ghost predicate FoundAt(start: nat, m: nat, name: string, within: set<string>, serving: set<string>) reads this {
      && OwnerAt(start, m) == Some(name) && name in serving
      && NotAmong(start, m, if name in within then within else serving)
      && (name !in within ==> NotAmong(start, |chwblSortedHashes|, within))
    }

    ghost predicate PanicsAt(start: nat, m: nat, within: set<string>) reads this {
      m < |chwblSortedHashes| && OwnerAt(start, m).None? && NotAmong(start, m, within)
    }

    /** What the walk finds from `start`, whatever the ring. */
    ghost predicate Walked(start: nat, within: set<string>, serving: set<string>, r: Lookup) reads this {
      match r
      case Found(name) => exists m: nat :: FoundAt(start, m, name, within, serving)
      case NotFound => NotAmong(start, |chwblSortedHashes|, serving)
      case Panicked => exists m: nat :: PanicsAt(start, m, within)
    }

    /** The loop of the selection: once around the ring from `i0`. */
    method WalkRing(i0: nat, loadFactor: real, adapter: string, ghost within: set<string>, ghost serving: set<string>)
      returns (r: Lookup)
      requires i0 < |chwblSortedHashes| && Selects(adapter, loadFactor, within, serving)
      ensures Selects(adapter, loadFactor, within, serving)
      ensures Walked(i0, within, serving, r)
    {
      var i, n, default := i0, 0, NotFound;
      ghost var first := 0;
      while n < |chwblSortedHashes|
        invariant 0 <= n <= |chwblSortedHashes| && (n < |chwblSortedHashes| ==> i == Walk(i0, n, |chwblSortedHashes|))
        invariant NotAmong(i0, n, within)
        invariant !default.Panicked?
        invariant if default.NotFound? then NotAmong(i0, n, serving)
                  else first < n && OwnerAt(i0, first) == Some(default.name) && default.name in serving && NotAmong(i0, first, serving)
      {
        // A missing entry reads as the empty name, which no endpoint has.
        if chwblSortedHashes[i] !in chwblHashes || chwblHashes[chwblSortedHashes[i]] !in endpoints {
          assert PanicsAt(i0, n, within);
          return Panicked;
        }
        var name := chwblHashes[chwblSortedHashes[i]];
        var ep := endpoints[name];
        if Serves(ep, adapter) {
          if default.NotFound? {
            default := Found(name);
            first := n;
          }
          if LoadOK(ep.inFlight.value, totalInFlight, |endpoints|, loadFactor) {
            assert FoundAt(i0, n, name, within, serving);
            return Found(name);
          }
        }
        i := if i + 1 >= |chwblSortedHashes| then 0 else i + 1;
        n := n + 1;
      }
      if default.Found? { assert FoundAt(i0, first, default.name, within, serving); }
      r := default;
    }

    /** A walk panics only on an entry without an owner, and without a candidate it reaches it. */
    lemma EntriesOwned(start: nat)
      requires start < |chwblSortedHashes|
      ensures RingHistory.EveryPointOwned(Ring()) <==> NotAmong(start, |chwblSortedHashes|, {})
    {
      var s := chwblSortedHashes;
      if NotAmong(start, |s|, {}) {
        forall h | h in Ring().points ensures h in chwblHashes && chwblHashes[h] in endpoints {
          assert h in s;
          var k := WalkReaches(s, start, h);
          assert OwnerAt(start, k).Some?;
        }
      }
      if RingHistory.EveryPointOwned(Ring()) {
        forall k: nat | k < |s| ensures OwnerAt(start, k).Some? {
          assert s[Walk(start, k, |s|)] in Ring().points;
        }
      }
    }

    /** `serving` has the adapter, and of these `within` pass the load test. */
    ghost predicate Selects(adapter: string, loadFactor: real, within: set<string>, serving: set<string>)
      reads this, Counters()
    {
      && within <= serving <= endpoints.Keys
      && (forall name :: name in endpoints ==> (name in serving <==> Serves(endpoints[name], adapter)))
      && (forall name :: name in serving ==>
            (name in within <==> LoadOK(endpoints[name].inFlight.value, totalInFlight, |endpoints|, loadFactor)))
    }

    lemma SelectionSets(adapter: string, loadFactor: real, within: set<string>, serving: set<string>)
      ensures Selects(adapter, loadFactor, within, serving) <==> within == WithinLoad(adapter, loadFactor) && serving == Serving(adapter)
      ensures Selects(adapter, loadFactor, within, serving) ==> within <= serving <= endpoints.Keys
    {
      hide LoadOK;
      assert forall name :: name in endpoints ==> endpoints.Keys != {} && |endpoints| == |endpoints.Keys|;
    }

    lemma PanicsIff(start: nat, within: set<string>, serving: set<string>, r: Lookup)
      requires start < |chwblSortedHashes| && within <= serving && Walked(start, within, serving, r)
      ensures r.Panicked? ==> !RingHistory.EveryPointOwned(Ring())
      ensures !RingHistory.EveryPointOwned(Ring()) && serving == {} ==> r.Panicked?
      ensures r.Found? ==> r.name in serving
    {
      EntriesOwned(start);
      hide OwnerAt, RingHistory.EveryPointOwned;
      if r.Panicked? {
        var m: nat :| PanicsAt(start, m, within);
      } else if r.Found? {
        var m: nat :| FoundAt(start, m, r.name, within, serving);
      }
    }

    lemma LookupOutcome(start: nat, key: Hash, within: set<string>, serving: set<string>, r: Lookup)
      requires start < |chwblSortedHashes| && within <= serving <= endpoints.Keys && Walked(start, within, serving, r)
      requires IsStart(chwblSortedHashes, key, start) && Valid() && chwblHashes != map[]
      ensures r.Panicked? ==> RingHistory.CanPanic(Ring())
      ensures RingHistory.CanPanic(Ring()) && serving == {} ==> r.Panicked?
      ensures r.Found? ==> r.name in serving
      ensures Canonical() ==> !r.Panicked? && (r.NotFound? <==> replication <= 0 || serving == {})
      ensures Canonical() && r.Found? ==> Nearest(hash, if within != {} then within else serving, Count(), key, r.name)
    {
      SomeNode();
      hide Valid, Canonical, Nearest, Walked, IsStart, RingHistory.EveryPointOwned;
      PanicsIff(start, within, serving, r);
      if Canonical() { CanonicalLookup(start, key, within, serving, r); }
    }

    lemma CanonicalLookup(start: nat, key: Hash, within: set<string>, serving: set<string>, r: Lookup)
      requires Canonical() && IsStart(chwblSortedHashes, key, start) && Count() >= 1
      requires within <= serving <= endpoints.Keys && Walked(start, within, serving, r)
      ensures !r.Panicked? && (r.NotFound? <==> serving == {})
      ensures r.Found? ==> Nearest(hash, if within != {} then within else serving, Count(), key, r.name)
    {
      hide Canonical, Nearest;
      match r
      case Found(name) =>
        var m: nat :| FoundAt(start, m, name, within, serving);
        if name in within {
          FirstOwner(within, key, start, m, name);
        } else {
          AllOwners(within, start);
          FirstOwner(serving, key, start, m, name);
        }
      case NotFound => AllOwners(serving, start);
      case Panicked =>
        var m: nat :| PanicsAt(start, m, within);
        EntryIsOwned(Walk(start, m, |chwblSortedHashes|));
    }

    lemma EntryIsOwned(i: nat)
      requires Canonical() && i < |chwblSortedHashes|
      ensures chwblSortedHashes[i] in chwblHashes && chwblHashes[chwblSortedHashes[i]] in endpoints
    {
      var replica := EntryHasOwner(hash, endpoints.Keys, Count(), chwblHashes, chwblSortedHashes, i);
    }

    /** The first `n` entries of the walk have owners, none of them among `names`. */
    ghost predicate NotAmong(start: nat, n: nat, names: set<string>) reads this {
      forall k: nat :: k < n ==> OwnerAt(start, k).Some? && OwnerAt(start, k).value !in names
    }

    /** The endpoint that owns the array entry `steps` steps after `start`. */
    ghost function OwnerAt(start: nat, steps: nat): Option<string> reads this {
      if start < |chwblSortedHashes| && steps < |chwblSortedHashes| then
        var h := chwblSortedHashes[Walk(start, steps, |chwblSortedHashes|)];
        if h in chwblHashes && chwblHashes[h] in endpoints then Some(chwblHashes[h]) else None
      else None
    }

    lemma FirstOwner(candidates: set<string>, key: Hash, start: nat, m: nat, name: string)
      requires Canonical() && candidates <= endpoints.Keys && IsStart(chwblSortedHashes, key, start)
      requires OwnerAt(start, m) == Some(name) && name in candidates
      requires NotAmong(start, m, candidates)
      ensures Nearest(hash, candidates, Count(), key, name)
    {
      var s := chwblSortedHashes;
      forall k: nat | k < m
        ensures s[Walk(start, k, |s|)] in chwblHashes && chwblHashes[s[Walk(start, k, |s|)]] !in candidates
      {
        assert OwnerAt(start, k).Some?;
      }
      FirstOnWalkIsNearest(hash, endpoints.Keys, Count(), chwblHashes, s, candidates, key, start, m);
    }

    lemma AllOwners(candidates: set<string>, start: nat)
      requires Canonical() && candidates <= endpoints.Keys && start < |chwblSortedHashes| && Count() >= 1
      requires NotAmong(start, |chwblSortedHashes|, candidates)
      ensures candidates == {}
    {
      var s := chwblSortedHashes;
      forall k: nat | k < |s|
        ensures s[Walk(start, k, |s|)] in chwblHashes && chwblHashes[s[Walk(start, k, |s|)]] !in candidates
      {
        assert OwnerAt(start, k).Some?;
      }
      FullWalkMeetsAll(hash, endpoints.Keys, Count(), chwblHashes, s, candidates, start);
    }

    lemma NoNodes(adapter: string)
      requires Canonical() && |chwblHashes| == 0
      ensures replication <= 0 || Serving(adapter) == {}
    {
      if replication > 0 && endpoints != map[] {
        var name :| name in endpoints;
        VNodeInRing(hash, endpoints.Keys, Count(), chwblHashes, chwblSortedHashes, name, 0);
      }
    }

    lemma SomeNode()
      requires Valid() && |chwblHashes| > 0
      ensures chwblSortedHashes != [] && Count() >= 1
    {
      assert chwblHashes.Keys != {};
      var h :| h in chwblHashes.Keys;
      assert h in multiset(chwblSortedHashes) && h in Points(hash, chwblHashes[h], Count());
    }

    /** After any history under the exact condition no lookup panics. */
    lemma NoPanic(all: set<string>)
      requires Reached(all) && (RingHistory.NamesNeverCollide(hash, all, Count()) || RingHistory.AllCoincide(hash, all, Count()))
      ensures !RingHistory.CanPanic(Ring())
    {
      hide RingHistory.NamesNeverCollide, RingHistory.AllCoincide, RingHistory.CanPanic, RingHistory.History;
      RingHistory.NeverPanicsIff(hash, Count(), all);
    }

    /** A least loaded endpoint among those that serve the adapter, in any iteration order. */
    method GetAddrLeastLoad(adapter: string) returns (r: Option<string>)
      ensures r.None? <==> forall n :: n in endpoints ==> adapter != "" && adapter !in endpoints[n].adapters
      ensures r.Some? ==> r.value in endpoints && (adapter != "" ==> adapter in endpoints[r.value].adapters)
      ensures r.Some? ==> forall n :: n in endpoints && (adapter == "" || adapter in endpoints[n].adapters) ==>
                            endpoints[r.value].inFlight.value <= endpoints[n].inFlight.value
      ensures r.None? <==> Serving(adapter) == {}
      ensures r.Some? ==> r.value in Serving(adapter) && forall name :: name in Serving(adapter) ==> Load(r.value) <= Load(name)
    {
      r := None;
      var todo := endpoints.Keys;
      while todo != {}
        invariant todo <= endpoints.Keys
        invariant r.None? ==> forall name :: name in Serving(adapter) ==> name in todo
        invariant r.Some? ==> r.value in Serving(adapter)
        invariant r.Some? ==> forall name :: name in Serving(adapter) && name !in todo ==> Load(r.value) <= Load(name)
        decreases todo
      {
        var name :| name in todo;
        if Serves(endpoints[name], adapter) && (r.None? || endpoints[name].inFlight.value < endpoints[r.value].inFlight.value) {
          r := Some(name);
        }
        todo := todo - {name};
      }
      WhoServes(adapter);
    }

    /** Who can take a request, read off the endpoints. */
    lemma WhoServes(adapter: string)
      ensures forall n :: n in Serving(adapter) <==> n in endpoints && (adapter == "" || adapter in endpoints[n].adapters)
    {
    }

    /** Who is within the load bound at a percentage, read off the counters. */
    lemma WhoIsWithinLoad(adapter: string, percentage: int)
      ensures forall n :: n in WithinLoad(adapter, percentage as real / 100.0) <==>
                && n in endpoints && (adapter == "" || adapter in endpoints[n].adapters)
                && (totalInFlight == 0
                    || 100 * endpoints[n].inFlight.value * |endpoints| <= percentage * (totalInFlight + 1))
    {
      WhoServes(adapter);
      var factor := percentage as real / 100.0;
      forall n | n in endpoints
        ensures |endpoints| > 0
        ensures LoadOK(Load(n), totalInFlight, |endpoints|, factor) <==>
                totalInFlight == 0 || 100 * endpoints[n].inFlight.value * |endpoints| <= percentage * (totalInFlight + 1)
      {
        assert endpoints.Keys != {} && |endpoints| == |endpoints.Keys|;
        LoadTestInPercent(Load(n), totalInFlight, |endpoints|, percentage);
      }
      hide LoadOK, Serving;
    }

    // ----- leases

    ghost function Loads(): map<string, int>
      reads this, Counters()
    {
      map name | name in endpoints :: endpoints[name].inFlight.value
    }

    /** What the selection returns without an adapter is a pick in the sense of `LoadBounds`. */
    lemma PickIsBounded(factor: real, key: Hash, name: string)
      requires Nearest(hash, Candidates("", factor), Count(), key, name)
      ensures |Loads()| > 0 && BoundedPick(Loads(), totalInFlight, factor, name)
    {
      assert Loads().Keys == endpoints.Keys && name in endpoints;
      assert |Loads()| == |Loads().Keys| && |endpoints| == |endpoints.Keys|;
      if WithinLoad("", factor) == {} {
        forall n | n in Loads() ensures !LoadOK(Loads()[n], totalInFlight, |Loads()|, factor) {
          assert n !in WithinLoad("", factor);
        }
      }
    }

    method AddInFlight(c: Counter, add: int)
      modifies this`totalInFlight, c
      ensures totalInFlight == old(totalInFlight) + add && c.value == old(c.value) + add
    {
      totalInFlight := totalInFlight + add;
      c.value := c.value + add;
    }

    /** The selection by the configured strategy. */
    method SelectAddr(strategy: Strategy, adapter: string) returns (r: Option<string>)
      requires Valid() && Canonical()
      ensures r.Some? ==> r.value in endpoints && (adapter != "" ==> adapter in endpoints[r.value].adapters)
      ensures replication >= 1 || strategy.LeastLoad? ==>
                (r.Some? <==> exists n :: n in endpoints && (adapter == "" || adapter in endpoints[n].adapters))
      ensures r.None? <==> Serving(adapter) == {} || (strategy.PrefixHash? && replication <= 0)
      ensures r.Some? ==> r.value in Serving(adapter) && match strategy
        case LeastLoad => forall n :: n in Serving(adapter) ==> Load(r.value) <= Load(n)
        case PrefixHash(key, factor) =>
          Nearest(hash, Candidates(adapter, factor), Count(), hash(key), r.value)
      ensures r.Some? && adapter == "" ==> Chooses(strategy, Loads(), totalInFlight, r.value)
    {
      hide Canonical, Valid, LoadOK;
      match strategy {
        case LeastLoad => r := GetAddrLeastLoad(adapter);
        case PrefixHash(key, factor) =>
          var found := ChwblGetAddr(key, factor, adapter);
          r := if found.Found? then Some(found.name) else None;
          if r.Some? && adapter == "" { PickIsBounded(factor, hash(key), r.value); }
      }
      if strategy.LeastLoad? && r.Some? && adapter == "" { PickIsLeast(r.value); }
      WhoServes(adapter);
    }

    /** One attempt to find an address and lease it: selection and both increments under the
        read lock.  None means that the caller waits for the endpoints to change; otherwise the
        load of the selected endpoint, and no other, grows by one. */
    method LeaseBestAddr(strategy: Strategy, adapter: string) returns (r: Option<Lease>, ghost name: string)
      requires Valid() && Canonical()
      modifies this`totalInFlight, Counters()
      ensures Valid() && Canonical()
      ensures r.Some? ==> name in endpoints && (adapter != "" ==> adapter in endpoints[name].adapters)
      ensures replication >= 1 || strategy.LeastLoad? ==>
                (r.Some? <==> exists n :: n in endpoints && (adapter == "" || adapter in endpoints[n].adapters))
      ensures r.None? <==> Serving(adapter) == {} || (strategy.PrefixHash? && replication <= 0)
      ensures r.None? ==> totalInFlight == old(totalInFlight) && Loads() == old(Loads())
      ensures r.Some? ==> name in Serving(adapter) && r.value == Lease(endpoints[name].address, endpoints[name].inFlight)
      ensures r.Some? ==> totalInFlight == old(totalInFlight) + 1 && Loads() == Bump(old(Loads()), name)
      ensures forall c :: c in old(Counters()) ==> c.value == old(c.value) + if r.Some? && c == r.value.inFlight then 1 else 0
      ensures r.Some? ==> match strategy
        case LeastLoad => forall n :: n in Serving(adapter) ==> old(Load(name)) <= old(Load(n))
        case PrefixHash(key, factor) =>
          Nearest(hash, old(Candidates(adapter, factor)), Count(), hash(key), name)
      ensures r.Some? && adapter == "" ==> Chooses(strategy, old(Loads()), old(totalInFlight), name)
    {
      hide RingHistory.Backed, NonDecreasing, Canonical, Nearest, Candidates, Chooses;
      var found := SelectAddr(strategy, adapter);
      if found.None? { return None, ""; }
      name := found.value;
      var ep := endpoints[found.value];
      AddInFlight(ep.inFlight, 1);
      r := Some(Lease(ep.address, ep.inFlight));
    }

    /** The release closure: it decrements the counter that was leased, live or not. */
    method Release(lease: Lease)
      modifies this`totalInFlight, lease.inFlight
      ensures totalInFlight == old(totalInFlight) - 1 && lease.inFlight.value == old(lease.inFlight.value) - 1
    {
      AddInFlight(lease.inFlight, -1);
    }

    lemma PickIsLeast(name: string)
      requires name in Serving("") && forall n :: n in Serving("") ==> Load(name) <= Load(n)
      ensures LeastPick(Loads(), name)
    {
      forall n | n in Loads() ensures Loads()[name] <= Loads()[n] { assert n in Serving(""); }
    }

    /** Without an adapter, while the live loads leave room below the threshold some endpoint is
        within the bound: the selection does not fall back. */
    lemma NoFallback(loadFactor: real)
      requires |endpoints| > 0 && RoomLeft(Sum(Loads()), totalInFlight, |endpoints|, loadFactor)
      ensures WithinLoad("", loadFactor) != {}
    {
      assert Loads().Keys == endpoints.Keys;
      assert |Loads()| == |Loads().Keys| && |endpoints| == |endpoints.Keys|;
      SomeEndpointPasses(Loads(), totalInFlight, loadFactor);
      hide LoadOK;
      var k :| k in Loads() && LoadOK(Loads()[k], totalInFlight, |Loads()|, loadFactor);
      assert k in WithinLoad("", loadFactor);
    }

    // ----- reconciling with the observed Pods

    method AddObserved(observed: map<string, Observed>)
      requires Valid()
      modifies this`endpoints, this`chwblHashes, this`chwblSortedHashes
      ensures Valid() && endpoints.Keys == old(endpoints).Keys + observed.Keys
      ensures forall n :: n in old(endpoints) && n !in observed ==> endpoints[n] == old(endpoints)[n]
      ensures Updated(observed, old(endpoints), endpoints, {})
      ensures forall n :: n in observed && n !in old(endpoints) ==> fresh(endpoints[n].inFlight) && endpoints[n].inFlight.value == 0
      ensures old(Canonical()) && InjectiveOn(hash, endpoints.Keys, Count()) ==> Canonical()
      ensures forall universe: set<string> :: old(Reached(universe)) && observed.Keys <= universe ==> Reached(universe)
    {
      var todo := observed.Keys;
      ghost var before, all := endpoints, endpoints.Keys + observed.Keys;
      ghost var sound := Canonical() && InjectiveOn(hash, all, Count());
      ghost var made: set<Counter> := {};
      hide Valid, Canonical, Reached, InjectiveOn;
      while todo != {}
        invariant todo <= observed.Keys && Valid()
        invariant Observing(observed, before, endpoints, todo, made)
        invariant fresh(made) && forall c :: c in made ==> c.value == 0
        invariant sound ==> Canonical()
        invariant forall universe: set<string> :: old(Reached(universe)) && observed.Keys <= universe ==> Reached(universe)
        decreases todo
      {
        var name :| name in todo;
        ghost var mid := endpoints;
        var e := ObserveOne(name, observed[name], all, sound);
        ObserveStep(observed, before, mid, todo, made, name, e);
        if name !in before { made := made + {e.inFlight}; }
        todo := todo - {name};
      }
    }

    /** Each observed name not in `todo` shows what was observed: a retained one under its old address and
        counter, a new one under the observed address. */
    static ghost predicate Updated(observed: map<string, Observed>, before: map<string, Endpoint>, now: map<string, Endpoint>, todo: set<string>) {
      forall n :: n in observed && n !in todo && n in now ==>
        && now[n].adapters == observed[n].adapters
        && (n in before ==> now[n].address == before[n].address && now[n].inFlight == before[n].inFlight)
        && (n !in before ==> now[n].address == observed[n].address)
    }

    /** The state of the loop over the observed endpoints, with `todo` still to come and
        `made` the counters created so far. */
    static ghost predicate Observing(observed: map<string, Observed>, before: map<string, Endpoint>, now: map<string, Endpoint>,
                                     todo: set<string>, made: set<Counter>) {
      && (forall n :: n in now <==> n in before || (n in observed && n !in todo))
      && (forall n :: n in before && (n !in observed || n in todo) ==> now[n] == before[n])
      && (forall n :: n in now && n !in before ==> now[n].inFlight in made)
      && Updated(observed, before, now, todo)
    }

    static lemma ObserveStep(observed: map<string, Observed>, before: map<string, Endpoint>, mid: map<string, Endpoint>,
                             todo: set<string>, made: set<Counter>, name: string, e: Endpoint)
      requires Observing(observed, before, mid, todo, made) && name in observed && name in todo
      requires e.adapters == observed[name].adapters
      requires name in before ==> e.address == before[name].address && e.inFlight == before[name].inFlight
      requires name !in before ==> e.address == observed[name].address
      ensures Observing(observed, before, mid[name := e], todo - {name}, if name in before then made else made + {e.inFlight})
    {
    }

    method ObserveOne(name: string, o: Observed, ghost all: set<string>, ghost sound: bool) returns (e: Endpoint)
      requires Valid() && endpoints.Keys <= all && name in all
      requires sound ==> Canonical() && InjectiveOn(hash, all, Count())
      modifies this`endpoints, this`chwblHashes, this`chwblSortedHashes
      ensures Valid() && endpoints == old(endpoints)[name := e] && e.adapters == o.adapters
      ensures name in old(endpoints) ==> e.address == old(endpoints)[name].address && e.inFlight == old(endpoints)[name].inFlight
      ensures name !in old(endpoints) ==> e.address == o.address && fresh(e.inFlight) && e.inFlight.value == 0
      ensures sound ==> Canonical()
      ensures forall universe: set<string> :: old(Reached(universe)) && name in universe ==> Reached(universe)
    {
      if name in endpoints {
        e := endpoints[name].(adapters := o.adapters);
        endpoints := endpoints[name := e];
        assert endpoints.Keys == old(endpoints).Keys;
        assert Ring() == old(Ring());
      } else {
        e := AddNew(name, o, all, sound);
      }
    }

    /** A new endpoint gets a counter of its own and its virtual nodes. */
    method AddNew(name: string, o: Observed, ghost all: set<string>, ghost sound: bool) returns (e: Endpoint)
      requires Valid() && name !in endpoints && endpoints.Keys <= all && name in all
      requires sound ==> Canonical() && InjectiveOn(hash, all, Count())
      modifies this`endpoints, this`chwblHashes, this`chwblSortedHashes
      ensures Valid() && endpoints == old(endpoints)[name := e] && e.adapters == o.adapters && e.address == o.address
      ensures fresh(e.inFlight) && e.inFlight.value == 0
      ensures Ring() == RingHistory.Apply(hash, Count(), old(Ring()), RingHistory.Join(name))
      ensures sound ==> Canonical()
      ensures forall universe: set<string> :: old(Reached(universe)) && name in universe ==> Reached(universe)
    {
      ghost var names, owner, sorted, ring := endpoints.Keys, chwblHashes, chwblSortedHashes, Ring();
      var c := new Counter(name);
      e := Endpoint(o.address, c, o.adapters);
      endpoints := endpoints[name := e];
      ChwblAddEndpoint(name);
      assert endpoints.Keys == names + {name};
      RingChanges(ring, RingHistory.Join(name));
      if sound {
        InjectiveOnFewer(hash, all, names + {name}, Count());
        RingGrows(hash, names, name, Count(), owner, sorted, chwblHashes, chwblSortedHashes);
      }
    }

    lemma RingChanges(ring: RingHistory.Ring, c: RingHistory.Change)
      requires RingHistory.Backed(hash, Count(), ring) && (c.Join? <==> c.name !in ring.names)
      requires Ring() == RingHistory.Apply(hash, Count(), ring, c)
      ensures RingHistory.Backed(hash, Count(), Ring())
      ensures forall universe: set<string> ::
                RingHistory.Reaches(hash, Count(), universe, ring) && c.name in universe ==> Reached(universe)
    {
      hide RingHistory.Backed, RingHistory.Reaches, RingHistory.Apply;
      RingHistory.ApplyBacked(hash, Count(), ring, c);
      forall universe: set<string> | RingHistory.Reaches(hash, Count(), universe, ring) && c.name in universe
        ensures Reached(universe)
      {
        RingHistory.ReachesOneMore(hash, Count(), universe, ring, c);
      }
    }

    method DropUnobserved(observed: map<string, Observed>)
      requires Valid()
      modifies this`endpoints, this`chwblHashes, this`chwblSortedHashes
      ensures Valid() && endpoints.Keys == old(endpoints).Keys * observed.Keys
      ensures forall n :: n in endpoints ==> endpoints[n] == old(endpoints)[n]
      ensures old(Canonical()) && InjectiveOn(hash, old(endpoints).Keys, Count()) ==> Canonical()
      ensures forall universe: set<string> :: old(Reached(universe)) && old(endpoints).Keys <= universe ==> Reached(universe)
    {
      var todo := endpoints.Keys;
      ghost var before, all := endpoints, endpoints.Keys;
      hide Valid, Canonical, Reached, InjectiveOn;
      while todo != {}
        invariant todo <= endpoints.Keys && Valid()
        invariant endpoints.Keys <= all && forall n :: n in all && n !in todo ==> (n in endpoints <==> n in observed)
        invariant forall n :: n in endpoints ==> endpoints[n] == before[n]
        invariant old(Canonical()) && InjectiveOn(hash, all, Count()) ==> Canonical()
        invariant forall universe: set<string> :: old(Reached(universe)) && all <= universe ==> Reached(universe)
        decreases todo
      {
        var name :| name in todo;
        if name !in observed {
          DropOne(name, all);
        }
        todo := todo - {name};
      }
    }

    method DropOne(name: string, ghost all: set<string>)
      requires Valid() && name in endpoints && endpoints.Keys <= all
      modifies this`endpoints, this`chwblHashes, this`chwblSortedHashes
      ensures Valid() && endpoints == old(endpoints) - {name}
      ensures Ring() == RingHistory.Apply(hash, Count(), old(Ring()), RingHistory.Leave(name))
      ensures old(Canonical()) && InjectiveOn(hash, all, Count()) ==> Canonical()
      ensures forall universe: set<string> :: old(Reached(universe)) && name in universe ==> Reached(universe)
    {
      ghost var names, owner, sorted, ring := endpoints.Keys - {name}, chwblHashes, chwblSortedHashes, Ring();
      assert endpoints.Keys == names + {name};
      ChwblRemoveEndpoint(name);
      endpoints := endpoints - {name};
      assert endpoints.Keys == names;
      RingChanges(ring, RingHistory.Leave(name));
      if old(Canonical()) && InjectiveOn(hash, all, Count()) {
        InjectiveOnFewer(hash, all, names + {name}, Count());
        RingShrinks(hash, names, name, Count(), owner, sorted, chwblHashes, chwblSortedHashes);
      }
    }

    /** Afterwards the endpoints are exactly the observed ones.  A retained endpoint keeps its
        address and counter and takes the observed adapters; a new one starts with a counter of
        its own at zero.  The ring follows, whatever the iteration order. */
    method ReconcileEndpoints(observed: map<string, Observed>)
      requires Valid()
      modifies this`endpoints, this`chwblHashes, this`chwblSortedHashes
      ensures Valid() && endpoints.Keys == observed.Keys
      ensures forall n :: n in observed ==>
                && endpoints[n].adapters == observed[n].adapters
                && (n in old(endpoints) ==>
                      endpoints[n].address == old(endpoints)[n].address && endpoints[n].inFlight == old(endpoints)[n].inFlight)
                && (n !in old(endpoints) ==> endpoints[n].address == observed[n].address)
      ensures Updated(observed, old(endpoints), endpoints, {})
      ensures forall n :: n in observed && n !in old(endpoints) ==> fresh(endpoints[n].inFlight) && endpoints[n].inFlight.value == 0
      ensures old(Canonical()) && InjectiveOn(hash, old(endpoints).Keys + observed.Keys, Count()) ==> Canonical()
      ensures forall universe: set<string> ::
                old(Reached(universe)) && old(endpoints).Keys + observed.Keys <= universe ==> Reached(universe)
    {
      hide Valid, Canonical, Reached, InjectiveOn;
      AddObserved(observed);
      DropUnobserved(observed);
    }
  }

  // ----- sequences of reconciles

  function AddressesOf(endpoints: map<string, Endpoint>): map<string, string> {
    map n | n in endpoints :: endpoints[n].address
  }

  /** The addresses after each observation in turn: an endpoint keeps the one it was added with. */
  function Addresses(start: map<string, string>, observations: seq<map<string, Observed>>): map<string, string> {
    if observations == [] then start
    else
      var before, o := Addresses(start, observations[..|observations| - 1]), observations[|observations| - 1];
      map n | n in o :: if n in before then before[n] else o[n].address
  }

  /** The name was there before the k-th observation. */
  predicate ThereBefore(start: map<string, string>, observations: seq<map<string, Observed>>, k: nat, n: string)
    requires k <= |observations|
  {
    if k == 0 then n in start else n in observations[k - 1]
  }

  /** `k` is when the name was last added: it was absent before and present ever since. */
  ghost predicate LastAddedAt(start: map<string, string>, observations: seq<map<string, Observed>>, n: string, k: nat) {
    k < |observations| && !ThereBefore(start, observations, k, n) && forall i :: k <= i < |observations| ==> n in observations[i]
  }

  /** The address of an endpoint is the one observed when its name was last added. */
  lemma {:induction false} AddressIsFromLastJoin(start: map<string, string>, observations: seq<map<string, Observed>>, n: string, k: nat)
    requires LastAddedAt(start, observations, n, k)
    ensures var now, o := Addresses(start, observations), observations;
            n in now && now[n] == o[k][n].address
  {
    var front := observations[..|observations| - 1];
    if k == |front| {
      AddressesKeys(start, front);
    } else {
      AddressIsFromLastJoin(start, front, n, k);
    }
  }

  /** So a name observed twice, at two addresses, stays at the first. */
  lemma StaleAddress(n: string, first: string, second: string, adapters: set<string>)
    ensures var o := [map[n := Observed(first, adapters)], map[n := Observed(second, adapters)]];
            Addresses(map[], o) == map[n := first]
  {
    var o := [map[n := Observed(first, adapters)], map[n := Observed(second, adapters)]];
    AddressIsFromLastJoin(map[], o, n, 0);
    AddressesKeys(map[], o);
  }

  lemma AddressesKeys(start: map<string, string>, observations: seq<map<string, Observed>>)
    ensures Addresses(start, observations).Keys ==
            if observations == [] then start.Keys else observations[|observations| - 1].Keys
  {
  }

  /** Every endpoint was either last added by some observation or there from the start, under
      its old address. */
  lemma {:induction false} AddressOrigin(start: map<string, string>, observations: seq<map<string, Observed>>, n: string)
    requires n in Addresses(start, observations)
    ensures (exists k: nat :: LastAddedAt(start, observations, n, k))
            || (n in start && Addresses(start, observations)[n] == start[n] && forall o :: o in observations ==> n in o)
  {
    if observations != [] {
      var front, m := observations[..|observations| - 1], |observations| - 1;
      AddressesKeys(start, front);
      if n in Addresses(start, front) {
        AddressOrigin(start, front, n);
        if k: nat :| LastAddedAt(start, front, n, k) {
          assert LastAddedAt(start, observations, n, k);
        }
      } else {
        assert LastAddedAt(start, observations, n, m);
      }
    }
  }

  /** Whatever is observed in turn, the endpoints are the last ones observed, under the addresses
      they were added with, and the ring is theirs. */
  method ReconcileInTurn(g: EndpointGroup, observations: seq<map<string, Observed>>, ghost all: set<string>)
    requires g.Valid() && g.endpoints.Keys <= all
    requires forall i :: 0 <= i < |observations| ==> observations[i].Keys <= all
    modifies g
    ensures g.Valid()
    ensures old(g.Canonical()) && InjectiveOn(g.hash, all, g.Count()) ==> g.Canonical()
    ensures old(g.Reached(all)) ==> g.Reached(all)
    ensures observations != [] ==> g.endpoints.Keys == observations[|observations| - 1].Keys
    ensures AddressesOf(g.endpoints) == Addresses(AddressesOf(old(g.endpoints)), observations)
  {
    hide RingOf, NonDecreasing, InjectiveOn, RingHistory.Reaches;
    ghost var start := AddressesOf(g.endpoints);
    for i := 0 to |observations|
      invariant g.Valid() && g.endpoints.Keys <= all
      invariant old(g.Canonical()) && InjectiveOn(g.hash, all, g.Count()) ==> g.Canonical()
      invariant old(g.Reached(all)) ==> g.Reached(all)
      invariant i > 0 ==> g.endpoints.Keys == observations[i - 1].Keys
      invariant AddressesOf(g.endpoints) == Addresses(start, observations[..i])
    {
      assert observations[..i + 1][..i] == observations[..i];
      ghost var before := g.endpoints;
      if InjectiveOn(g.hash, all, g.Count()) { InjectiveOnFewer(g.hash, all, g.endpoints.Keys + observations[i].Keys, g.Count()); }
      g.ReconcileEndpoints(observations[i]);
      AddressesFollow(observations[i], before, g.endpoints);
    }
    assert observations[..|observations|] == observations;
  }

  lemma AddressesFollow(observed: map<string, Observed>, before: map<string, Endpoint>, now: map<string, Endpoint>)
    requires now.Keys == observed.Keys && EndpointGroup.Updated(observed, before, now, {})
    ensures var was := AddressesOf(before);
            AddressesOf(now) == map n | n in observed :: if n in was then was[n] else observed[n].address
  {
  }

  // ----- every history of the ring happens to a group

  /** Endpoints without adapters come and go one by one. */
  method Replay(hash: HashFn, replication: nat, changes: seq<RingHistory.Change>, ghost all: set<string>) returns (g: EndpointGroup)
    requires RingHistory.History(hash, replication, all, changes)
    ensures fresh(g) && g.hash == hash && g.replication == replication && g.Valid()
    ensures g.Ring() == RingHistory.After(hash, replication, changes)
    ensures forall n :: n in g.endpoints ==> g.endpoints[n].adapters == {}
  {
    g := new EndpointGroup(hash, replication);
    hide EndpointGroup.Valid, EndpointGroup.Canonical, EndpointGroup.Reached, RingHistory.Apply;
    for i := 0 to |changes|
      invariant fresh(g) && g.hash == hash && g.replication == replication && g.Valid()
      invariant g.Ring() == RingHistory.After(hash, replication, changes[..i])
      invariant forall n :: n in g.endpoints ==> g.endpoints[n].adapters == {}
    {
      RingHistory.HistoryAt(hash, replication, all, changes, i);
      match changes[i] {
        case Join(name) => var e := g.AddNew(name, Observed("", {}), g.endpoints.Keys + {name}, false);
        case Leave(name) => g.DropOne(name, g.endpoints.Keys);
      }
    }
    assert changes[..|changes|] == changes;
  }

  /** Where a history reaches a ring that can panic, a lookup does: for any key, with an adapter
      no endpoint has. */
  method LookupPanics(hash: HashFn, replication: nat, changes: seq<RingHistory.Change>, ghost all: set<string>, key: string)
    returns (r: Lookup)
    requires RingHistory.History(hash, replication, all, changes)
    requires RingHistory.CanPanic(RingHistory.After(hash, replication, changes))
    ensures r.Panicked?
  {
    var g := Replay(hash, replication, changes, all);
    hide EndpointGroup.Valid, EndpointGroup.Canonical, RingHistory.CanPanic, EndpointGroup.Ring;
    assert g.Serving("lora") == {};
    r := g.ChwblGetAddr(key, 1.0, "lora");
    assert g.Serving("lora") == {};
  }

  /** The owner of a key before and after any reconcile, at any loads: a key moves only to an
      endpoint that joined or away from one that left. */
  method OwnerAcrossReconcile(g: EndpointGroup, key: string, observed: map<string, Observed>)
    returns (before: Option<string>, after: Option<string>)
    requires g.Valid() && g.Canonical() && InjectiveOn(g.hash, g.endpoints.Keys + observed.Keys, g.Count())
    modifies g
    ensures g.endpoints.Keys == observed.Keys
    ensures before.Some? && after.Some? && before != after ==> after.value !in old(g.endpoints) || before.value !in observed
  {
    hide InjectiveOn, Nearest, RingOf;
    before, after := None, None;
    ghost var names := g.endpoints.Keys;
    if |g.chwblHashes| > 0 {
      var i0;
      before, i0 := g.ChwblInitial(key);
    }
    g.ReconcileEndpoints(observed);
    if |g.chwblHashes| > 0 {
      var i0;
      after, i0 := g.ChwblInitial(key);
    }
    if before.Some? && after.Some? {
      MovesOnlyOnChange(g.hash, names + observed.Keys, names, observed.Keys, g.Count(), g.hash(key), before.value, after.value);
    }
  }

  /** The lookup itself, at any loads, for any adapter: the endpoint chosen changes only to one
      that was no candidate before, or away from one that is no candidate any more. */
  method LookupAcrossReconcile(g: EndpointGroup, key: string, factor: real, adapter: string, observed: map<string, Observed>)
    returns (before: Lookup, after: Lookup)
    requires g.Valid() && g.Canonical() && InjectiveOn(g.hash, g.endpoints.Keys + observed.Keys, g.Count())
    modifies g
    ensures g.endpoints.Keys == observed.Keys && !before.Panicked? && !after.Panicked?
    ensures before.Found? && after.Found? && before != after ==>
            after.name !in old(g.Candidates(adapter, factor)) || before.name !in g.Candidates(adapter, factor)
  {
    hide InjectiveOn, Nearest, LoadOK, RingHistory.CanPanic, EndpointGroup.Valid, EndpointGroup.Canonical, EndpointGroup.Reached;
    ghost var was, names := g.Candidates(adapter, factor), g.endpoints.Keys;
    before := g.ChwblGetAddr(key, factor, adapter);
    assert g.Candidates(adapter, factor) == was;
    g.ReconcileEndpoints(observed);
    after := g.ChwblGetAddr(key, factor, adapter);
    assert before.Found? ==> Nearest(g.hash, was, g.Count(), g.hash(key), before.name);
    assert after.Found? ==> Nearest(g.hash, g.Candidates(adapter, factor), g.Count(), g.hash(key), after.name);
    if before.Found? && after.Found? {
      MovesOnlyOnChange(g.hash, names + observed.Keys, was, g.Candidates(adapter, factor), g.Count(), g.hash(key), before.name, after.name);
    }
  }
}
