/** The consistent-hashing ring as a value: virtual nodes, clockwise distance, ownership
    (internal/loadbalancer/balance_chwbl.go).

    The 64-bit hash function is a parameter.  What the ring needs of it is stated as
    `InjectiveOn`; `InputsCollideIff` says exactly when the hash inputs themselves collide. */
module HashRing {
  import opened Wrappers

  const RING := 0x1_0000_0000_0000_0000

  type Hash = h: int | 0 <= h < RING

  type HashFn = string -> Hash

  // ----- hash inputs

  function Digit(d: nat): char
    requires d < 10
  {
    "0123456789"[d]
  }

  /** Decimal notation without leading zeros. */
  function Decimal(n: nat): string {
    if n < 10 then [Digit(n)] else Decimal(n / 10) + [Digit(n % 10)]
  }

  /** The string that is hashed for one virtual node: plain concatenation. */
  function ReplicaInput(name: string, replica: nat): string { name + Decimal(replica) }

  function VNode(hash: HashFn, name: string, replica: nat): Hash { hash(ReplicaInput(name, replica)) }

  /** The number a string of decimal digits stands for. */
  function NumberOf(s: string): int {
    if s == "" then 0 else 10 * NumberOf(s[..|s| - 1]) + (s[|s| - 1] as int - '0' as int)
  }

  lemma {:induction false} DecimalIsNotation(n: nat)
    ensures NumberOf(Decimal(n)) == n && (|Decimal(n)| > 1 ==> Decimal(n)[0] != '0')
    ensures forall i :: 0 <= i < |Decimal(n)| ==> '0' <= Decimal(n)[i] <= '9'
  {
    if n < 10 {
      assert Decimal(n)[..0] == "";
    } else {
      DecimalIsNotation(n / 10);
      assert Decimal(n)[..|Decimal(n)| - 1] == Decimal(n / 10);
      if n / 10 < 10 { assert Decimal(n / 10) == [Digit(n / 10)]; }
    }
  }

  lemma DigitInjective(a: nat, b: nat)
    requires a < 10 && b < 10 && Digit(a) == Digit(b)
    ensures a == b
  {
  }

  lemma {:induction false} DecimalInjective(m: nat, n: nat)
    requires Decimal(m) == Decimal(n)
    ensures m == n
  {
    assert Decimal(m)[|Decimal(m)| - 1] == Decimal(n)[|Decimal(n)| - 1];
    DigitInjective(m % 10, n % 10);
    if m >= 10 && n >= 10 {
      assert Decimal(m / 10) == Decimal(m)[..|Decimal(m)| - 1];
      assert Decimal(n / 10) == Decimal(n)[..|Decimal(n)| - 1];
      DecimalInjective(m / 10, n / 10);
    }
  }

  /** Decimals that end in another decimal: what precedes it is a decimal of at most a tenth. */
  lemma {:induction false} DecimalSuffix(i: nat, t: string, j: nat) returns (m: nat)
    requires Decimal(i) == t + Decimal(j) && t != []
    ensures 1 <= m && 10 * m <= i && t == Decimal(m)
  {
    assert |Decimal(i)| >= 2;
    assert Decimal(i / 10) == Decimal(i)[..|Decimal(i)| - 1];
    if j < 10 {
      m := i / 10;
      assert t == Decimal(i)[..|Decimal(i)| - 1];
    } else {
      assert Decimal(j / 10) == Decimal(j)[..|Decimal(j)| - 1];
      assert Decimal(i / 10) == t + Decimal(j / 10);
      m := DecimalSuffix(i / 10, t, j / 10);
    }
  }

  /** Two names collide on some hash input exactly when one is the other followed by the
      decimal of some m >= 1 with 10m below the replication. */
  ghost predicate InputsCollide(a: string, b: string, replication: int) {
    exists i: nat, j: nat :: i < replication && j < replication && ReplicaInput(a, i) == ReplicaInput(b, j)
  }

  predicate Extends(a: string, b: string, m: nat, replication: int) {
    1 <= m && 10 * m < replication && b == a + Decimal(m)
  }

  lemma LongerName(a: string, b: string, replication: int, i: nat, j: nat) returns (m: nat)
    requires i < replication && ReplicaInput(a, i) == ReplicaInput(b, j) && |a| < |b|
    ensures Extends(a, b, m, replication)
  {
    var w := ReplicaInput(a, i);
    assert a == w[..|a|] && b == w[..|b|];
    var t := b[|a|..];
    assert b == a + t;
    assert Decimal(i) == w[|a|..] && Decimal(j) == w[|b|..];
    assert Decimal(i) == t + Decimal(j);
    m := DecimalSuffix(i, t, j);
  }

  lemma SameLengthSameName(a: string, b: string, i: nat, j: nat)
    requires |a| == |b| && ReplicaInput(a, i) == ReplicaInput(b, j)
    ensures a == b
  {
    assert a == ReplicaInput(a, i)[..|a|];
    assert b == ReplicaInput(b, j)[..|a|];
  }

  lemma InputsCollideIff(a: string, b: string, replication: int)
    requires a != b
    ensures InputsCollide(a, b, replication) <==>
            (exists m: nat :: Extends(a, b, m, replication)) || (exists m: nat :: Extends(b, a, m, replication))
  {
    if InputsCollide(a, b, replication) {
      var i: nat, j: nat :| i < replication && j < replication && ReplicaInput(a, i) == ReplicaInput(b, j);
      if |a| == |b| {
        SameLengthSameName(a, b, i, j);
      } else if |a| < |b| {
        var m := LongerName(a, b, replication, i, j);
      } else {
        var m := LongerName(b, a, replication, j, i);
      }
    }
    if m: nat :| Extends(a, b, m, replication) {
      ExtensionCollides(a, b, m);
    } else if m: nat :| Extends(b, a, m, replication) {
      ExtensionCollides(b, a, m);
    }
  }

  lemma ExtensionCollides(a: string, b: string, m: nat)
    requires b == a + Decimal(m) && m >= 1
    ensures ReplicaInput(a, 10 * m) == ReplicaInput(b, 0)
  {
    assert Decimal(10 * m) == Decimal(m) + [Digit(0)];
    assert a + (Decimal(m) + [Digit(0)]) == (a + Decimal(m)) + [Digit(0)];
  }

  // ----- the ring of a set of names

  /** Distinct virtual nodes of the given names have distinct hashes. */
  ghost predicate InjectiveOn(hash: HashFn, names: set<string>, replication: int) {
    forall a, b, i: nat, j: nat ::
      a in names && b in names && i < replication && j < replication && VNode(hash, a, i) == VNode(hash, b, j)
      ==> a == b && i == j
  }

  lemma InjectiveOnFewer(hash: HashFn, names: set<string>, fewer: set<string>, replication: int)
    requires fewer <= names && InjectiveOn(hash, names, replication)
    ensures InjectiveOn(hash, fewer, replication)
  {
  }

  /** The virtual nodes of one name, in the order the code computes them. */
  function Points(hash: HashFn, name: string, count: nat): seq<Hash> {
    seq(count, i requires 0 <= i => VNode(hash, name, i))
  }

  function VNodes(hash: HashFn, names: set<string>, replication: int): set<Hash> {
    set name, i: nat | name in names && 0 <= i < replication :: VNode(hash, name, i)
  }

  ghost predicate NonDecreasing(s: seq<Hash>) {
    forall i, j :: 0 <= i < j < |s| ==> s[i] <= s[j]
  }

  ghost predicate StrictlySorted(s: seq<Hash>) {
    forall i, j :: 0 <= i < j < |s| ==> s[i] < s[j]
  }

  /** The array lists every virtual node of `names` once, in order. */
  ghost predicate ArrayOf(nodes: set<Hash>, sorted: seq<Hash>) {
    StrictlySorted(sorted) && forall h :: h in sorted <==> h in nodes
  }

  /** The map gives each virtual node of `names` its owner, and holds nothing else. */
  ghost predicate OwnersOf(hash: HashFn, names: set<string>, replication: int, owner: map<Hash, string>) {
    && owner.Keys == VNodes(hash, names, replication)
    && forall name, i: nat :: name in names && i < replication ==> owner[VNode(hash, name, i)] == name
  }

  ghost predicate RingOf(hash: HashFn, names: set<string>, replication: int, owner: map<Hash, string>, sorted: seq<Hash>) {
    ArrayOf(VNodes(hash, names, replication), sorted) && OwnersOf(hash, names, replication, owner)
  }

  lemma {:induction false} SortedSameMembers(s: seq<Hash>, t: seq<Hash>)
    requires StrictlySorted(s) && StrictlySorted(t) && forall h :: h in s <==> h in t
    ensures s == t
  {
    if s == [] {
      assert forall i :: 0 <= i < |t| ==> t[i] in s;
    } else {
      assert s[0] in t && t != [] && t[0] in s;
      assert s[0] == t[0];
      var s', t' := s[1..], t[1..];
      forall h ensures h in s' <==> h in t' {
        assert h in s <==> h == s[0] || h in s';
        assert h in t <==> h == t[0] || h in t';
      }
      SortedSameMembers(s', t');
      assert s == [s[0]] + s' && t == [t[0]] + t';
    }
  }

  /** The ring is determined by the set of names: no trace of the order of changes remains. */
  lemma RingIsCanonical(hash: HashFn, names: set<string>, replication: int,
                        owner: map<Hash, string>, sorted: seq<Hash>, owner': map<Hash, string>, sorted': seq<Hash>)
    requires RingOf(hash, names, replication, owner, sorted) && RingOf(hash, names, replication, owner', sorted')
    ensures owner == owner' && sorted == sorted'
  {
    SortedSameMembers(sorted, sorted');
    forall h | h in owner ensures owner[h] == owner'[h] {
      var name, i: nat :| name in names && 0 <= i < replication && h == VNode(hash, name, i);
    }
  }

  // ----- ownership by clockwise distance

  /** How far `point` lies clockwise from `key`. */
  function Distance(key: Hash, point: Hash): (d: nat)
    ensures d < RING
  {
    if key <= point then point - key else point - key + RING
  }

  /** Going that far clockwise from `key` leads to `point`, on a ring of 2^64 hashes. */
  lemma DistanceIsClockwise(key: Hash, point: Hash)
    ensures Distance(key, point) < 0x1_0000_0000_0000_0000
    ensures (key + Distance(key, point)) % 0x1_0000_0000_0000_0000 == point
  {
  }

  /** No virtual node of `candidates` lies nearer than `point`, clockwise from `key`. */
  ghost predicate NoneNearer(hash: HashFn, candidates: set<string>, replication: int, key: Hash, point: Hash) {
    forall other, j: nat :: other in candidates && j < replication ==> Distance(key, point) <= Distance(key, VNode(hash, other, j))
  }

  /** Of all virtual nodes of `candidates`, one of `name` is nearest clockwise from `key`. */
  ghost predicate Nearest(hash: HashFn, candidates: set<string>, replication: int, key: Hash, name: string) {
    && name in candidates
    && exists i: nat :: i < replication && NoneNearer(hash, candidates, replication, key, VNode(hash, name, i))
  }

  lemma NearestIsUnique(hash: HashFn, candidates: set<string>, replication: int, key: Hash, x: string, y: string)
    requires InjectiveOn(hash, candidates, replication)
    requires Nearest(hash, candidates, replication, key, x) && Nearest(hash, candidates, replication, key, y)
    ensures x == y
  {
    var i: nat :| i < replication && NoneNearer(hash, candidates, replication, key, VNode(hash, x, i));
    var k: nat :| k < replication && NoneNearer(hash, candidates, replication, key, VNode(hash, y, k));
    assert Distance(key, VNode(hash, x, i)) == Distance(key, VNode(hash, y, k));
    assert VNode(hash, x, i) == VNode(hash, y, k);
  }

  lemma NearestOfFewer(hash: HashFn, candidates: set<string>, fewer: set<string>, replication: int, key: Hash, x: string)
    requires fewer <= candidates && x in fewer && Nearest(hash, candidates, replication, key, x)
    ensures Nearest(hash, fewer, replication, key, x)
  {
    var i: nat :| i < replication && NoneNearer(hash, candidates, replication, key, VNode(hash, x, i));
    assert NoneNearer(hash, fewer, replication, key, VNode(hash, x, i));
  }

  /** Between any two sets of candidates a key moves only to a name that is not in the first, or
      away from one that is not in the second. */
  lemma MovesOnlyOnChange(hash: HashFn, names: set<string>, first: set<string>, second: set<string>, replication: int, key: Hash,
                          before: string, after: string)
    requires first <= names && second <= names && InjectiveOn(hash, names, replication)
    requires Nearest(hash, first, replication, key, before) && Nearest(hash, second, replication, key, after)
    ensures before != after ==> after !in first || before !in second
  {
    if after in first && before in second {
      var common := first * second;
      InjectiveOnFewer(hash, names, common, replication);
      NearestOfFewer(hash, first, common, replication, key, before);
      NearestOfFewer(hash, second, common, replication, key, after);
      NearestIsUnique(hash, common, replication, key, before, after);
    }
  }

  /** Adding an endpoint moves a key only to the new endpoint; read backwards, removing an
      endpoint moves only the keys it owned. */
  lemma MinimalDisruption(hash: HashFn, names: set<string>, added: string, replication: int, key: Hash, before: string, after: string)
    requires added !in names && InjectiveOn(hash, names + {added}, replication)
    requires Nearest(hash, names, replication, key, before)
    requires Nearest(hash, names + {added}, replication, key, after)
    ensures after != before ==> after == added
  {
    MovesOnlyOnChange(hash, names + {added}, names, names + {added}, replication, key, before, after);
  }

  // ----- walking the array meets virtual nodes by increasing distance

  /** `start` is the first index at or after `key`, or 0 when there is none. */
  ghost predicate IsStart(sorted: seq<Hash>, key: Hash, start: nat) {
    && start < |sorted|
    && (forall j :: 0 <= j < start ==> sorted[j] < key)
    && (key <= sorted[start] || (start == 0 && forall j :: 0 <= j < |sorted| ==> sorted[j] < key))
  }

  /** The index after `steps` steps with wrap-around. */
  function Walk(start: nat, steps: nat, size: nat): nat
    requires start < size && steps < size
    ensures Walk(start, steps, size) < size
  {
    if start + steps < size then start + steps else start + steps - size
  }

  lemma WalkIncreasesDistance(sorted: seq<Hash>, key: Hash, start: nat, m: nat, q: nat)
    requires StrictlySorted(sorted) && IsStart(sorted, key, start) && m < q < |sorted|
    ensures Distance(key, sorted[Walk(start, m, |sorted|)]) < Distance(key, sorted[Walk(start, q, |sorted|)])
  {
    var i, j := Walk(start, m, |sorted|), Walk(start, q, |sorted|);
    assert sorted[start] <= sorted[i] || i < start;
    assert i < j ==> sorted[i] < sorted[j];
    assert j < i ==> sorted[j] < sorted[i];
  }

  lemma WalkReaches(sorted: seq<Hash>, start: nat, h: Hash) returns (m: nat)
    requires start < |sorted| && h in sorted
    ensures m < |sorted| && sorted[Walk(start, m, |sorted|)] == h
  {
    var t :| 0 <= t < |sorted| && sorted[t] == h;
    m := if t >= start then t - start else t - start + |sorted|;
  }

  lemma VNodeInRing(hash: HashFn, names: set<string>, count: nat, owner: map<Hash, string>, sorted: seq<Hash>, name: string, i: nat)
    requires RingOf(hash, names, count, owner, sorted) && name in names && i < count
    ensures VNode(hash, name, i) in sorted && VNode(hash, name, i) in owner && owner[VNode(hash, name, i)] == name
  {
    assert VNode(hash, name, i) in VNodes(hash, names, count);
  }

  /** The owner of an array entry is a name of the ring, and the entry one of its virtual nodes. */
  lemma EntryHasOwner(hash: HashFn, names: set<string>, count: nat, owner: map<Hash, string>, sorted: seq<Hash>, t: nat) returns (i: nat)
    requires RingOf(hash, names, count, owner, sorted) && t < |sorted|
    ensures sorted[t] in owner && owner[sorted[t]] in names && i < count && sorted[t] == VNode(hash, owner[sorted[t]], i)
  {
    assert sorted[t] in sorted;
    var name, k: nat :| name in names && 0 <= k < count && sorted[t] == VNode(hash, name, k);
    i := k;
  }

  /** The first entry of the walk owned by a candidate is the candidates' nearest virtual node. */
  lemma FirstOnWalkIsNearest(hash: HashFn, names: set<string>, count: nat, owner: map<Hash, string>, sorted: seq<Hash>,
                             candidates: set<string>, key: Hash, start: nat, m: nat)
    requires RingOf(hash, names, count, owner, sorted) && candidates <= names
    requires IsStart(sorted, key, start) && m < |sorted|
    requires sorted[Walk(start, m, |sorted|)] in owner && owner[sorted[Walk(start, m, |sorted|)]] in candidates
    requires forall k: nat :: k < m ==>
      sorted[Walk(start, k, |sorted|)] in owner && owner[sorted[Walk(start, k, |sorted|)]] !in candidates
    ensures Nearest(hash, candidates, count, key, owner[sorted[Walk(start, m, |sorted|)]])
  {
    var t := Walk(start, m, |sorted|);
    var name := owner[sorted[t]];
    var i := EntryHasOwner(hash, names, count, owner, sorted, t);
    forall other, j: nat | other in candidates && j < count
      ensures Distance(key, VNode(hash, name, i)) <= Distance(key, VNode(hash, other, j))
    {
      VNodeInRing(hash, names, count, owner, sorted, other, j);
      var q := WalkReaches(sorted, start, VNode(hash, other, j));
      if m < q { WalkIncreasesDistance(sorted, key, start, m, q); }
    }
    assert NoneNearer(hash, candidates, count, key, VNode(hash, name, i));
  }

  /** A walk all around that meets no candidate shows that there is none. */
  lemma FullWalkMeetsAll(hash: HashFn, names: set<string>, count: nat, owner: map<Hash, string>, sorted: seq<Hash>,
                         candidates: set<string>, start: nat)
    requires RingOf(hash, names, count, owner, sorted) && candidates <= names && count >= 1 && start < |sorted|
    requires forall k: nat :: k < |sorted| ==>
      sorted[Walk(start, k, |sorted|)] in owner && owner[sorted[Walk(start, k, |sorted|)]] !in candidates
    ensures candidates == {}
  {
    if candidates != {} {
      var name :| name in candidates;
      VNodeInRing(hash, names, count, owner, sorted, name, 0);
      var k := WalkReaches(sorted, start, VNode(hash, name, 0));
    }
  }

  // ----- the points of a name, one by one

  function Owned(points: seq<Hash>, name: string): map<Hash, string> { map h | h in points :: name }

  function Elements(points: seq<Hash>): set<Hash> { set h | h in points }

  lemma NextPoint(hash: HashFn, name: string, i: nat)
    ensures Points(hash, name, i + 1) == Points(hash, name, i) + [VNode(hash, name, i)]
  {
  }

  lemma OwnNextPoint(owner: map<Hash, string>, points: seq<Hash>, h: Hash, name: string)
    ensures (owner + Owned(points, name))[h := name] == owner + Owned(points + [h], name)
  {
  }

  lemma DropNextPoint(owner: map<Hash, string>, points: seq<Hash>, h: Hash)
    ensures owner - Elements(points) - {h} == owner - Elements(points + [h])
  {
    assert Elements(points + [h]) == Elements(points) + {h};
  }

  // ----- what adding and removing a name does to the ring

  lemma UniqueInOrder(s: seq<Hash>)
    requires NonDecreasing(s) && forall h :: multiset(s)[h] <= 1
    ensures StrictlySorted(s)
  {
    forall i, j | 0 <= i < j < |s| ensures s[i] < s[j] {
      assert s == s[..i] + [s[i]] + s[i + 1..j] + [s[j]] + s[j + 1..];
      assert s[i] == s[j] ==> multiset(s)[s[i]] >= 2;
    }
  }

  lemma PointsMembers(hash: HashFn, name: string, count: nat, h: Hash)
    ensures h in Points(hash, name, count) <==> exists i: nat :: i < count && VNode(hash, name, i) == h
    ensures h in Points(hash, name, count) <==> h in VNodes(hash, {name}, count)
  {
    var s := Points(hash, name, count);
    if i: nat :| i < count && VNode(hash, name, i) == h { assert s[i] == h; }
    if h in s { var i :| 0 <= i < |s| && s[i] == h; assert VNode(hash, name, i) == h; }
  }

  lemma PointsAreNew(hash: HashFn, names: set<string>, name: string, count: nat)
    requires name !in names && InjectiveOn(hash, names + {name}, count)
    ensures VNodes(hash, names, count) !! VNodes(hash, {name}, count)
    ensures forall h :: multiset(Points(hash, name, count))[h] <= 1
  {
    var s := Points(hash, name, count);
    forall i, j | 0 <= i < j < |s| ensures s[i] != s[j] {
      assert s[i] == VNode(hash, name, i) && s[j] == VNode(hash, name, j);
    }
    forall h: Hash ensures multiset(s)[h] <= 1 { DistinctMultiplicity(s, h); }
  }

  lemma PointsAreVNodes(hash: HashFn, name: string, count: nat)
    ensures forall h :: h in Points(hash, name, count) <==> h in VNodes(hash, {name}, count)
  {
    forall h ensures h in Points(hash, name, count) <==> h in VNodes(hash, {name}, count) {
      PointsMembers(hash, name, count, h);
    }
  }

  lemma VNodesSplit(hash: HashFn, names: set<string>, name: string, count: nat)
    ensures VNodes(hash, names + {name}, count) == VNodes(hash, names, count) + VNodes(hash, {name}, count)
  {
  }

  lemma ArrayGrows(nodes: set<Hash>, sorted: seq<Hash>, points: seq<Hash>, added: set<Hash>, sorted': seq<Hash>)
    requires ArrayOf(nodes, sorted) && nodes !! added && forall h :: h in points <==> h in added
    requires forall h :: multiset(points)[h] <= 1
    requires NonDecreasing(sorted') && multiset(sorted') == multiset(sorted) + multiset(points)
    ensures ArrayOf(nodes + added, sorted')
  {
    forall h: Hash ensures multiset(sorted')[h] <= 1 && (h in sorted' <==> h in sorted || h in points) {
      DistinctMultiplicity(sorted, h);
      assert h in sorted' <==> h in multiset(sorted');
      assert h in sorted <==> h in multiset(sorted);
      assert h in points <==> h in multiset(points);
    }
    UniqueInOrder(sorted');
  }

  lemma ArrayShrinks(nodes: set<Hash>, sorted: seq<Hash>, points: seq<Hash>, removed: set<Hash>, sorted': seq<Hash>)
    requires ArrayOf(nodes + removed, sorted) && nodes !! removed && forall h :: h in points <==> h in removed
    requires NonDecreasing(sorted') && multiset(sorted') == multiset(sorted) - multiset(points)
    ensures ArrayOf(nodes, sorted')
  {
    forall h: Hash ensures multiset(sorted')[h] <= 1 && (h in sorted' <==> h in sorted && h !in points) {
      DistinctMultiplicity(sorted, h);
      assert h in sorted' <==> h in multiset(sorted');
      assert h in sorted <==> h in multiset(sorted);
      assert h in points <==> h in multiset(points);
    }
    UniqueInOrder(sorted');
  }

  lemma OwnersGrow(hash: HashFn, names: set<string>, name: string, count: nat, owner: map<Hash, string>, owner': map<Hash, string>)
    requires OwnersOf(hash, names, count, owner) && VNodes(hash, names, count) !! VNodes(hash, {name}, count)
    requires owner' == owner + Owned(Points(hash, name, count), name)
    ensures OwnersOf(hash, names + {name}, count, owner')
  {
    PointsAreVNodes(hash, name, count);
    VNodesSplit(hash, names, name, count);
    forall n, i: nat | n in names + {name} && i < count ensures owner'[VNode(hash, n, i)] == n {
      assert n == name ==> VNode(hash, n, i) in VNodes(hash, {name}, count);
      assert n != name ==> VNode(hash, n, i) in VNodes(hash, names, count);
    }
  }

  lemma OwnersShrink(hash: HashFn, names: set<string>, name: string, count: nat, owner: map<Hash, string>, owner': map<Hash, string>)
    requires OwnersOf(hash, names + {name}, count, owner) && VNodes(hash, names, count) !! VNodes(hash, {name}, count)
    requires owner' == owner - Elements(Points(hash, name, count))
    ensures OwnersOf(hash, names, count, owner')
  {
    PointsAreVNodes(hash, name, count);
    VNodesSplit(hash, names, name, count);
    forall n, i: nat | n in names && i < count ensures VNode(hash, n, i) in owner' && owner'[VNode(hash, n, i)] == n {
      assert VNode(hash, n, i) in VNodes(hash, names, count);
    }
  }

  lemma RingGrows(hash: HashFn, names: set<string>, name: string, count: nat,
                  owner: map<Hash, string>, sorted: seq<Hash>, owner': map<Hash, string>, sorted': seq<Hash>)
    requires RingOf(hash, names, count, owner, sorted)
    requires name !in names && InjectiveOn(hash, names + {name}, count)
    requires owner' == owner + Owned(Points(hash, name, count), name)
    requires NonDecreasing(sorted') && multiset(sorted') == multiset(sorted) + multiset(Points(hash, name, count))
    ensures RingOf(hash, names + {name}, count, owner', sorted')
  {
    PointsAreVNodes(hash, name, count);
    PointsAreNew(hash, names, name, count);
    VNodesSplit(hash, names, name, count);
    ArrayGrows(VNodes(hash, names, count), sorted, Points(hash, name, count), VNodes(hash, {name}, count), sorted');
    OwnersGrow(hash, names, name, count, owner, owner');
  }

  lemma RingShrinks(hash: HashFn, names: set<string>, name: string, count: nat,
                    owner: map<Hash, string>, sorted: seq<Hash>, owner': map<Hash, string>, sorted': seq<Hash>)
    requires RingOf(hash, names + {name}, count, owner, sorted)
    requires name !in names && InjectiveOn(hash, names + {name}, count)
    requires owner' == owner - Elements(Points(hash, name, count))
    requires NonDecreasing(sorted') && multiset(sorted') == multiset(sorted) - multiset(Points(hash, name, count))
    ensures RingOf(hash, names, count, owner', sorted')
  {
    PointsAreVNodes(hash, name, count);
    PointsAreNew(hash, names, name, count);
    VNodesSplit(hash, names, name, count);
    ArrayShrinks(VNodes(hash, names, count), sorted, Points(hash, name, count), VNodes(hash, {name}, count), sorted');
    OwnersShrink(hash, names, name, count, owner, owner');
  }

  /** Names whose virtual nodes collide break the ring: once both have been added and one is
      removed, a virtual node of the other is in the array but has no owner. */
  lemma CollisionLeavesDanglingPoint(hash: HashFn, a: string, b: string, count: nat, i: nat, j: nat)
    requires a != b && i < count && j < count && VNode(hash, a, i) == VNode(hash, b, j)
    ensures var owner := Owned(Points(hash, a, count), a) + Owned(Points(hash, b, count), b) - Elements(Points(hash, b, count));
            var points := multiset(Points(hash, a, count)) + multiset(Points(hash, b, count)) - multiset(Points(hash, b, count));
            VNode(hash, a, i) in points && VNode(hash, a, i) !in owner
  {
    PointsMembers(hash, a, count, VNode(hash, a, i));
    PointsMembers(hash, b, count, VNode(hash, b, j));
    assert multiset(Points(hash, a, count)) + multiset(Points(hash, b, count)) - multiset(Points(hash, b, count))
      == multiset(Points(hash, a, count));
  }

  /** "a" and "a1" collide under every hash function once the replication exceeds ten. */
  lemma CollisionExample(hash: HashFn)
    ensures VNode(hash, "a", 10) == VNode(hash, "a1", 0)
  {
    assert Decimal(1) == "1" && "a1" == "a" + Decimal(1);
    ExtensionCollides("a", "a1", 1);
  }
}
