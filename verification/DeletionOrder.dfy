/** The order in which the model controller gives up Pods
    (internal/modelcontroller/pod_plan.go, sortPodsByDeletionOrder).

    The comparator of the source is not a strict weak order when two different stale
    hashes meet.  What the planner relies on, readiness first, then scheduling, then
    staleness, holds regardless; `Rank` names it. */
module DeletionOrder {

  /** The part of a Kubernetes Pod the planner looks at.  `key` is namespace/name,
      `hash` the Pod-template hash label, `created` the creation time. */
  datatype Pod = Pod(key: string, ready: bool, scheduled: bool, hash: string, created: int, terminating: bool)

  /** The comparator: `p` is given up before `q`. */
  predicate Less(p: Pod, q: Pod, expected: string) {
    if p.ready != q.ready then !p.ready
    else if p.scheduled != q.scheduled then !p.scheduled
    else if p.hash != q.hash then p.hash != expected
    else p.created > q.created
  }

  /** Unready Pods rank below ready ones, then unscheduled below scheduled, then stale below current. */
  function Rank(p: Pod, expected: string): nat {
    (if p.ready then 4 else 0) + (if p.scheduled then 2 else 0) + (if p.hash == expected then 1 else 0)
  }

  ghost predicate RankSorted(s: seq<Pod>, expected: string) {
    forall i, j :: 0 <= i < j < |s| ==> Rank(s[i], expected) <= Rank(s[j], expected)
  }

  // ----- the sort, as a function on sequences

  /** `x` moves left past every Pod it is Less than, and stops at the first it is not. */
  function Insert(s: seq<Pod>, x: Pod, expected: string): seq<Pod> {
    if s != [] && Less(x, s[|s| - 1], expected)
    then Insert(s[..|s| - 1], x, expected) + [s[|s| - 1]]
    else s + [x]
  }

  function Sorted(s: seq<Pod>, expected: string): seq<Pod> {
    if s == [] then [] else Insert(Sorted(s[..|s| - 1], expected), s[|s| - 1], expected)
  }

  lemma {:induction false} InsertStopsAt(s: seq<Pod>, x: Pod, expected: string, j: nat)
    requires j <= |s| && (j == 0 || !Less(x, s[j - 1], expected))
    requires forall m :: j <= m < |s| ==> Less(x, s[m], expected)
    ensures Insert(s, x, expected) == s[..j] + [x] + s[j..]
  {
    if j < |s| {
      InsertStopsAt(s[..|s| - 1], x, expected, j);
      assert s[j..] == s[..|s| - 1][j..] + [s[|s| - 1]];
    }
  }

  /** One round of the insertion sort: a[i] is swapped down into the sorted a[..i]. */
  method SinkPod(a: array<Pod>, i: nat, expected: string)
    requires i < a.Length
    modifies a
    ensures a[..i + 1] == Insert(old(a[..i]), old(a[i]), expected)
    ensures a[i + 1..] == old(a[i + 1..])
  {
    ghost var t, rest := a[..i], a[i + 1..];
    var x := a[i];
    var j := i;
    while j > 0 && Less(a[j], a[j - 1], expected)
      invariant 0 <= j <= i && a[j] == x
      invariant forall m :: 0 <= m < j ==> a[m] == t[m]
      invariant forall m :: j < m <= i ==> a[m] == t[m - 1]
      invariant a[i + 1..] == rest
      invariant forall m :: j <= m < i ==> Less(x, t[m], expected)
    {
      a[j - 1], a[j] := a[j], a[j - 1];
      j := j - 1;
    }
    InsertStopsAt(t, x, expected, j);
    hide Insert, Less;
    assert a[..i + 1] == t[..j] + [x] + t[j..];
  }

  /** Sorts the first `n` Pods of `a` in place, by the swaps of a stable insertion sort. */
  method SortPodsByDeletionOrder(a: array<Pod>, n: nat, expected: string)
    requires n <= a.Length
    modifies a
    ensures a[..n] == Sorted(old(a[..n]), expected)
    ensures a[n..] == old(a[n..])
  {
    ghost var s := a[..];
    var i := 0;
    while i < n
      invariant 0 <= i <= n
      invariant a[..i] == Sorted(s[..i], expected)
      invariant a[i..] == s[i..]
    {
      assert s[..i + 1][..i] == s[..i] && s[i] == a[i..][0];
      assert a[i + 1..] == a[i..][1..] && s[i + 1..] == s[i..][1..];
      SinkPod(a, i, expected);
      i := i + 1;
    }
  }

  // ----- every input: a permutation, ordered by rank, stable

  lemma LastOfMultiset(s: seq<Pod>)
    requires s != []
    ensures multiset(s) == multiset(s[..|s| - 1]) + multiset{s[|s| - 1]}
  {
    assert s == s[..|s| - 1] + [s[|s| - 1]];
  }

  lemma {:induction false} InsertIsPermutation(s: seq<Pod>, x: Pod, expected: string)
    ensures multiset(Insert(s, x, expected)) == multiset(s) + multiset{x}
  {
    if s != [] && Less(x, s[|s| - 1], expected) {
      InsertIsPermutation(s[..|s| - 1], x, expected);
      LastOfMultiset(s);
    }
  }

  lemma {:induction false} SortedIsPermutation(s: seq<Pod>, expected: string)
    ensures multiset(Sorted(s, expected)) == multiset(s)
  {
    if s != [] {
      var front, last := s[..|s| - 1], s[|s| - 1];
      SortedIsPermutation(front, expected);
      InsertIsPermutation(Sorted(front, expected), last, expected);
      LastOfMultiset(s);
    }
  }

  lemma {:induction false} InsertMembers(s: seq<Pod>, x: Pod, expected: string, p: Pod)
    ensures p in Insert(s, x, expected) <==> p in s || p == x
  {
    InsertIsPermutation(s, x, expected);
    assert p in Insert(s, x, expected) <==> p in multiset(Insert(s, x, expected));
    assert p in s <==> p in multiset(s);
  }

  /** The comparator never lets a Pod of higher rank pass one of lower rank, and always
      lets a Pod of lower rank pass one of higher rank. */
  lemma LessRefinesRank(p: Pod, q: Pod, expected: string)
    ensures Less(p, q, expected) ==> Rank(p, expected) <= Rank(q, expected)
    ensures Rank(p, expected) < Rank(q, expected) ==> Less(p, q, expected)
  {
  }

  lemma {:induction false} InsertKeepsRank(s: seq<Pod>, x: Pod, expected: string)
    requires RankSorted(s, expected)
    ensures RankSorted(Insert(s, x, expected), expected)
  {
    if s != [] {
      var front, last := s[..|s| - 1], s[|s| - 1];
      if Less(x, last, expected) {
        InsertKeepsRank(front, x, expected);
        var r := Insert(front, x, expected);
        forall i | 0 <= i < |r|
          ensures Rank(r[i], expected) <= Rank(last, expected)
        {
          InsertMembers(front, x, expected, r[i]);
          LessRefinesRank(x, last, expected);
        }
      } else {
        LessRefinesRank(x, last, expected);
      }
    }
  }

  /** Whatever hashes meet, the sort orders by readiness, then scheduling, then staleness. */
  lemma {:induction false} SortedByRank(s: seq<Pod>, expected: string)
    ensures RankSorted(Sorted(s, expected), expected)
  {
    if s != [] {
      SortedByRank(s[..|s| - 1], expected);
      InsertKeepsRank(Sorted(s[..|s| - 1], expected), s[|s| - 1], expected);
    }
  }

  /** Neither Pod has a reason to go first. */
  predicate Tied(p: Pod, q: Pod) {
    p.ready == q.ready && p.scheduled == q.scheduled && p.hash == q.hash && p.created == q.created
  }

  /** The Pods tied with `c`, in order. */
  function TiedWith(s: seq<Pod>, c: Pod): seq<Pod> {
    if s == [] then []
    else TiedWith(s[..|s| - 1], c) + if Tied(s[|s| - 1], c) then [s[|s| - 1]] else []
  }

  lemma {:induction false} InsertIsStable(s: seq<Pod>, x: Pod, expected: string, c: Pod)
    ensures TiedWith(Insert(s, x, expected), c) == TiedWith(s, c) + if Tied(x, c) then [x] else []
  {
    if s != [] && Less(x, s[|s| - 1], expected) {
      var front, last := s[..|s| - 1], s[|s| - 1];
      InsertIsStable(front, x, expected, c);
      assert (Insert(front, x, expected) + [last])[..|Insert(front, x, expected)|] == Insert(front, x, expected);
    } else {
      assert (s + [x])[..|s|] == s;
    }
  }

  /** Tied Pods keep their relative order, whatever hashes meet. */
  lemma {:induction false} SortedIsStable(s: seq<Pod>, expected: string, c: Pod)
    ensures TiedWith(Sorted(s, expected), c) == TiedWith(s, c)
  {
    if s != [] {
      SortedIsStable(s[..|s| - 1], expected, c);
      InsertIsStable(Sorted(s[..|s| - 1], expected), s[|s| - 1], expected, c);
    }
  }

  // ----- exactly when the comparator is a strict weak order

  ghost predicate StrictWeakOrderOn(s: seq<Pod>, expected: string) {
    && (forall p, q :: p in s && q in s && Less(p, q, expected) ==> !Less(q, p, expected))
    && (forall p, q, r :: p in s && q in s && r in s && Less(p, q, expected) && Less(q, r, expected) ==> Less(p, r, expected))
    && (forall p, q, r :: p in s && q in s && r in s && Less(p, r, expected) ==> Less(p, q, expected) || Less(q, r, expected))
  }

  /** Not two different stale hashes on Pods alike in readiness and scheduling. */
  predicate Agree(p: Pod, q: Pod, expected: string) {
    p.ready != q.ready || p.scheduled != q.scheduled || p.hash == expected || q.hash == expected || p.hash == q.hash
  }

  /** Pods alike in readiness and scheduling show at most one stale hash. */
  ghost predicate OneStaleHash(s: seq<Pod>, expected: string) {
    forall p, q :: p in s && q in s ==> Agree(p, q, expected)
  }

  /** The lexicographic order on (rank, youngest first). */
  predicate Before(p: Pod, q: Pod, expected: string) {
    Rank(p, expected) < Rank(q, expected) || (Rank(p, expected) == Rank(q, expected) && p.created > q.created)
  }

  lemma LessIsBefore(p: Pod, q: Pod, expected: string)
    requires Agree(p, q, expected)
    ensures Less(p, q, expected) <==> Before(p, q, expected)
  {
  }

  lemma ComparatorIsStrictWeakOrderIff(s: seq<Pod>, expected: string)
    ensures StrictWeakOrderOn(s, expected) <==> OneStaleHash(s, expected)
  {
    if OneStaleHash(s, expected) {
      forall p, q | p in s && q in s
        ensures Less(p, q, expected) <==> Before(p, q, expected)
      {
        LessIsBefore(p, q, expected);
      }
    } else {
      var p, q :| p in s && q in s && !Agree(p, q, expected);
      assert Less(p, q, expected) && Less(q, p, expected);
    }
  }

  /** Two ready, scheduled Pods with different stale hashes each come before the other. */
  lemma ComparatorCanContradictItself()
    ensures exists p: Pod, q: Pod, expected: string :: Less(p, q, expected) && Less(q, p, expected)
  {
    var p, q := Pod("ns/a", true, true, "old", 0, false), Pod("ns/b", true, true, "older", 0, false);
    assert p.hash[..3] == q.hash[..3] && |p.hash| != |q.hash| && |p.hash| == 3 && |"new"| == 3;
    assert p.hash[0] == 'o' && "new"[0] == 'n';
    assert Less(p, q, "new") && Less(q, p, "new");
  }

  ghost predicate YoungestFirst(s: seq<Pod>, expected: string) {
    forall i, j :: 0 <= i < j < |s| ==> !Before(s[j], s[i], expected)
  }

  lemma {:induction false} InsertKeepsYoungestFirst(s: seq<Pod>, x: Pod, expected: string)
    requires YoungestFirst(s, expected) && OneStaleHash(s + [x], expected)
    ensures YoungestFirst(Insert(s, x, expected), expected)
  {
    if s != [] {
      var front, last := s[..|s| - 1], s[|s| - 1];
      assert last in s + [x] && x in s + [x];
      LessIsBefore(x, last, expected);
      if Less(x, last, expected) {
        assert forall p :: p in front + [x] ==> p in s + [x];
        InsertKeepsYoungestFirst(front, x, expected);
        var r := Insert(front, x, expected);
        forall i | 0 <= i < |r|
          ensures !Before(last, r[i], expected)
        {
          InsertMembers(front, x, expected, r[i]);
        }
      }
    }
  }

  lemma SortedMembers(s: seq<Pod>, expected: string, p: Pod)
    ensures p in Sorted(s, expected) <==> p in s
  {
    SortedIsPermutation(s, expected);
    assert p in s <==> p in multiset(s);
    assert p in Sorted(s, expected) <==> p in multiset(Sorted(s, expected));
  }

  /** With one stale hash the result is ordered by rank and, within a rank, youngest first. */
  lemma {:induction false} SortedYoungestFirst(s: seq<Pod>, expected: string)
    requires OneStaleHash(s, expected)
    ensures YoungestFirst(Sorted(s, expected), expected)
  {
    if s != [] {
      var front := s[..|s| - 1];
      SortedYoungestFirst(front, expected);
      assert s == front + [s[|s| - 1]];
      forall p | p in Sorted(front, expected) ensures p in front { SortedMembers(front, expected, p); }
      hide YoungestFirst;
      InsertKeepsYoungestFirst(Sorted(front, expected), s[|s| - 1], expected);
    }
  }

  /** The same in the Pods' own terms: ready Pods come after unready ones, then scheduled after
      unscheduled, then current after stale; and with one stale hash younger ones come first. */
  lemma SortedInOwnTerms(s: seq<Pod>, expected: string)
    ensures forall i, j :: 0 <= i < j < |Sorted(s, expected)| ==>
      var p, q := Sorted(s, expected)[i], Sorted(s, expected)[j];
      && (p.ready ==> q.ready)
      && (p.ready == q.ready && p.scheduled ==> q.scheduled)
      && (p.ready == q.ready && p.scheduled == q.scheduled && p.hash == expected ==> q.hash == expected)
    ensures (forall p, q :: p in s && q in s ==> p.hash == expected || q.hash == expected || p.hash == q.hash) ==>
      forall i, j :: 0 <= i < j < |Sorted(s, expected)| ==>
        var p, q := Sorted(s, expected)[i], Sorted(s, expected)[j];
        p.ready == q.ready && p.scheduled == q.scheduled && p.hash == q.hash ==> p.created >= q.created
  {
    SortedByRank(s, expected);
    if forall p, q :: p in s && q in s ==> p.hash == expected || q.hash == expected || p.hash == q.hash {
      SortedYoungestFirst(s, expected);
    }
    hide Sorted;
  }

  // ----- with one stale hash, every stable sort gives the same list

  ghost predicate SameTies(s: seq<Pod>, t: seq<Pod>) {
    forall c: Pod :: TiedWith(s, c) == TiedWith(t, c)
  }

  lemma {:induction false} TiedWithMembers(s: seq<Pod>, c: Pod, p: Pod)
    ensures p in TiedWith(s, c) <==> p in s && Tied(p, c)
  {
    if s != [] {
      TiedWithMembers(s[..|s| - 1], c, p);
      assert s == s[..|s| - 1] + [s[|s| - 1]];
    }
  }

  lemma SameTiesSameMembers(s: seq<Pod>, t: seq<Pod>, p: Pod)
    requires SameTies(s, t) && p in s
    ensures p in t
  {
    TiedWithMembers(s, p, p);
    TiedWithMembers(t, p, p);
  }

  lemma SameTiesSameLast(s: seq<Pod>, t: seq<Pod>, expected: string)
    requires YoungestFirst(s, expected) && YoungestFirst(t, expected)
    requires OneStaleHash(s, expected) && SameTies(s, t)
    requires s != [] && t != []
    ensures s[|s| - 1] == t[|t| - 1]
  {
    var p, q := s[|s| - 1], t[|t| - 1];
    SameTiesSameMembers(s, t, p);
    SameTiesSameMembers(t, s, q);
    assert !Before(p, q, expected) && !Before(q, p, expected);
    assert Agree(p, q, expected);
    assert Tied(p, q);
    assert TiedWith(s, p)[|TiedWith(s, p)| - 1] == p;
    assert TiedWith(t, p)[|TiedWith(t, p)| - 1] == q;
  }

  lemma {:induction false} StableOrderIsUnique(s: seq<Pod>, t: seq<Pod>, expected: string)
    requires YoungestFirst(s, expected) && YoungestFirst(t, expected)
    requires OneStaleHash(s, expected) && SameTies(s, t)
    ensures s == t
  {
    if s == [] {
      if t != [] { SameTiesSameMembers(t, s, t[0]); }
    } else {
      SameTiesSameMembers(s, t, s[0]);
      SameTiesSameLast(s, t, expected);
      var s', t' := s[..|s| - 1], t[..|t| - 1];
      forall c: Pod
        ensures TiedWith(s', c) == TiedWith(t', c)
      {
        var tail := if Tied(s[|s| - 1], c) then [s[|s| - 1]] else [];
        assert TiedWith(s, c) == TiedWith(s', c) + tail && TiedWith(t, c) == TiedWith(t', c) + tail;
        assert TiedWith(s', c) == TiedWith(s, c)[..|TiedWith(s, c)| - |tail|];
        assert TiedWith(t', c) == TiedWith(t, c)[..|TiedWith(t, c)| - |tail|];
      }
      StableOrderIsUnique(s', t', expected);
      assert s == s' + [s[|s| - 1]] && t == t' + [t[|t| - 1]];
    }
  }

  /** Any stable sort by the comparator gives `Sorted`, whatever its algorithm. */
  lemma EveryStableSortAgrees(s: seq<Pod>, t: seq<Pod>, expected: string)
    requires OneStaleHash(s, expected)
    requires YoungestFirst(t, expected) && SameTies(s, t)
    ensures t == Sorted(s, expected)
  {
    SortedYoungestFirst(s, expected);
    forall c: Pod
      ensures TiedWith(Sorted(s, expected), c) == TiedWith(t, c)
    {
      SortedIsStable(s, expected, c);
    }
    forall p | p in Sorted(s, expected) ensures p in s { SortedMembers(s, expected, p); }
    StableOrderIsUnique(Sorted(s, expected), t, expected);
  }
}
