/** Selecting and counting Pods: the vocabulary in which the rollout planner is stated. */
module PodCounts {
  import opened Wrappers
  import opened DeletionOrder

  datatype Query =
    | Live
    | Ready
    | Stale(expected: string)
    | ReadyStale(expected: string)
    | UnreadyStale(expected: string)
    | ReadyCurrent(expected: string)
    | UnreadyCurrent(expected: string)

  predicate Holds(q: Query, p: Pod) {
    match q
    case Live => !p.terminating
    case Ready => p.ready
    case Stale(h) => p.hash != h
    case ReadyStale(h) => p.ready && p.hash != h
    case UnreadyStale(h) => !p.ready && p.hash != h
    case ReadyCurrent(h) => p.ready && p.hash == h
    case UnreadyCurrent(h) => !p.ready && p.hash == h
  }

  /** The Pods of `s` that satisfy `q`, in order. */
  function Select(s: seq<Pod>, q: Query): seq<Pod> {
    if s == [] then []
    else Select(s[..|s| - 1], q) + if Holds(q, s[|s| - 1]) then [s[|s| - 1]] else []
  }

  function Count(s: seq<Pod>, q: Query): nat { |Select(s, q)| }

  /** The Pods of `s` that are not listed in `gone`, in order. */
  function Survivors(s: seq<Pod>, gone: seq<Pod>): seq<Pod> {
    if s == [] then []
    else Survivors(s[..|s| - 1], gone) + if s[|s| - 1] in gone then [] else [s[|s| - 1]]
  }

  ghost predicate DistinctKeys(s: seq<Pod>) {
    forall i, j :: 0 <= i < j < |s| ==> s[i].key != s[j].key
  }

  function Keys(s: seq<Pod>): set<string> { set p | p in s :: p.key }

  lemma {:induction false} SelectMembers(s: seq<Pod>, q: Query, p: Pod)
    ensures p in Select(s, q) <==> p in s && Holds(q, p)
  {
    if s != [] {
      SelectMembers(s[..|s| - 1], q, p);
      assert s == s[..|s| - 1] + [s[|s| - 1]];
    }
  }

  lemma {:induction false} SelectConcat(s: seq<Pod>, t: seq<Pod>, q: Query)
    ensures Select(s + t, q) == Select(s, q) + Select(t, q)
  {
    if t == [] {
      assert s + t == s;
    } else {
      var t', x := t[..|t| - 1], t[|t| - 1];
      SelectConcat(s, t', q);
      assert (s + t)[..|s + t| - 1] == s + t';
    }
  }

  lemma {:induction false} CountAtMostLength(s: seq<Pod>, q: Query)
    ensures Count(s, q) <= |s|
    ensures (forall p :: p in s ==> Holds(q, p)) ==> Count(s, q) == |s|
    ensures (forall p :: p in s ==> !Holds(q, p)) ==> Count(s, q) == 0
  {
    if s != [] {
      CountAtMostLength(s[..|s| - 1], q);
      assert forall p :: p in s[..|s| - 1] ==> p in s;
    }
  }

  /** What the counts count, Pod by Pod. */
  lemma CountsInOwnTerms(s: seq<Pod>, h: string)
    requires DistinctKeys(s)
    ensures Count(s, Live) == |set p | p in s && !p.terminating|
    ensures Count(s, Ready) == |set p | p in s && p.ready|
    ensures Count(s, Stale(h)) == |set p | p in s && p.hash != h|
    ensures Count(s, ReadyStale(h)) == |set p | p in s && p.ready && p.hash != h|
    ensures Count(s, UnreadyStale(h)) == |set p | p in s && !p.ready && p.hash != h|
    ensures Count(s, ReadyCurrent(h)) == |set p | p in s && p.ready && p.hash == h|
    ensures Count(s, UnreadyCurrent(h)) == |set p | p in s && !p.ready && p.hash == h|
  {
    hide Select;
    forall q ensures Count(s, q) == |set p | p in s && Holds(q, p)| { CountIsSize(s, q); }
    assert (set p | p in s && Holds(Live, p)) == set p | p in s && !p.terminating;
    assert (set p | p in s && Holds(Ready, p)) == set p | p in s && p.ready;
    assert (set p | p in s && Holds(Stale(h), p)) == set p | p in s && p.hash != h;
    assert (set p | p in s && Holds(ReadyStale(h), p)) == set p | p in s && p.ready && p.hash != h;
    assert (set p | p in s && Holds(UnreadyStale(h), p)) == set p | p in s && !p.ready && p.hash != h;
    assert (set p | p in s && Holds(ReadyCurrent(h), p)) == set p | p in s && p.ready && p.hash == h;
    assert (set p | p in s && Holds(UnreadyCurrent(h), p)) == set p | p in s && !p.ready && p.hash == h;
  }

  lemma CountIsSize(s: seq<Pod>, q: Query)
    requires DistinctKeys(s)
    ensures Count(s, q) == |set p | p in s && Holds(q, p)|
  {
    SelectKeepsDistinct(s, q);
    DistinctSize(Select(s, q));
    forall p ensures p in Select(s, q) <==> p in s && Holds(q, p) { SelectMembers(s, q, p); }
    hide Select, Holds;
    assert (set p | p in Select(s, q)) == set p | p in s && Holds(q, p);
  }

  lemma {:induction false} DistinctSize(s: seq<Pod>)
    requires DistinctKeys(s)
    ensures |set p | p in s| == |s|
  {
    if s != [] {
      var front, last := s[..|s| - 1], s[|s| - 1];
      DistinctSize(front);
      assert s == front + [last];
      assert (set p | p in s) == (set p | p in front) + {last};
    }
  }

  /** Of the Pods that are not terminating the filter keeps each as often as it was there. */
  lemma {:induction false} LiveMultiplicity(s: seq<Pod>, p: Pod)
    ensures multiset(Select(s, Live))[p] == if p.terminating then 0 else multiset(s)[p]
  {
    if s != [] {
      var front, last := s[..|s| - 1], s[|s| - 1];
      LiveMultiplicity(front, p);
      assert s == front + [last];
    }
  }

  lemma LiveMultiplicities(s: seq<Pod>)
    ensures forall p :: multiset(Select(s, Live))[p] == if p.terminating then 0 else multiset(s)[p]
  {
    forall p ensures multiset(Select(s, Live))[p] == if p.terminating then 0 else multiset(s)[p] { LiveMultiplicity(s, p); }
  }

  /** Readiness and staleness split any list of Pods into four kinds. */
  lemma {:induction false} FourKinds(s: seq<Pod>, h: string)
    ensures |s| == Count(s, ReadyStale(h)) + Count(s, UnreadyStale(h)) + Count(s, ReadyCurrent(h)) + Count(s, UnreadyCurrent(h))
    ensures Count(s, Ready) == Count(s, ReadyStale(h)) + Count(s, ReadyCurrent(h))
    ensures Count(s, Stale(h)) == Count(s, ReadyStale(h)) + Count(s, UnreadyStale(h))
  {
    if s != [] {
      FourKinds(s[..|s| - 1], h);
    }
  }

  lemma {:induction false} SelectKeepsDistinct(s: seq<Pod>, q: Query)
    requires DistinctKeys(s)
    ensures DistinctKeys(Select(s, q))
  {
    if s != [] {
      SelectKeepsDistinct(s[..|s| - 1], q);
      forall p | p in Select(s[..|s| - 1], q) ensures p.key != s[|s| - 1].key {
        SelectMembers(s[..|s| - 1], q, p);
      }
    }
  }

  /** In a list without repeated keys, a Pod is determined by its key. */
  lemma KeyDeterminesPod(s: seq<Pod>, p: Pod, q: Pod)
    requires DistinctKeys(s) && p in s && q in s && p.key == q.key
    ensures p == q
  {
    var i :| 0 <= i < |s| && s[i] == p;
    var j :| 0 <= j < |s| && s[j] == q;
    assert i == j;
  }

  lemma {:induction false} KeyCount(s: seq<Pod>)
    requires DistinctKeys(s)
    ensures |Keys(s)| == |s|
  {
    if s != [] {
      var front, last := s[..|s| - 1], s[|s| - 1];
      KeyCount(front);
      assert s == front + [last];
      assert Keys(s) == Keys(front) + {last.key};
    }
  }

  lemma PermutationKeepsDistinct(s: seq<Pod>, t: seq<Pod>)
    requires DistinctKeys(s) && multiset(s) == multiset(t)
    ensures DistinctKeys(t)
  {
    forall i, j | 0 <= i < j < |t| ensures t[i].key != t[j].key {
      if t[i].key == t[j].key {
        assert t[i] in multiset(t) && t[j] in multiset(t);
        KeyDeterminesPod(s, t[i], t[j]);
        assert t == t[..i] + [t[i]] + t[i + 1..j] + [t[j]] + t[j + 1..];
        assert multiset(t)[t[i]] >= 2;
        DistinctMultiplicity(s, t[i]);
      }
    }
  }

  // ----- unready first

  lemma {:induction false} CountAll(s: seq<Pod>, q: Query)
    requires forall i :: 0 <= i < |s| ==> Holds(q, s[i])
    ensures Count(s, q) == |s|
  {
    if s != [] { CountAll(s[..|s| - 1], q); }
  }

  lemma {:induction false} CountNone(s: seq<Pod>, q: Query)
    requires forall i :: 0 <= i < |s| ==> !Holds(q, s[i])
    ensures Count(s, q) == 0
  {
    if s != [] { CountNone(s[..|s| - 1], q); }
  }

  lemma UnreadyPrefix(s: seq<Pod>, h: string, cut: nat, q: Query)
    requires RankSorted(s, h) && cut < |s| && !s[cut].ready && (q == Ready || q == ReadyStale(h))
    ensures Count(s[..cut], q) == 0
  {
    var front := s[..cut];
    forall i | 0 <= i < |front| ensures !Holds(q, front[i]) {
      assert Rank(s[i], h) <= Rank(s[cut], h);
    }
    CountNone(front, q);
  }

  lemma ReadySuffix(s: seq<Pod>, h: string, cut: nat)
    requires RankSorted(s, h) && cut < |s| && s[cut].ready
    ensures Count(s[cut..], Ready) == |s| - cut
  {
    var back := s[cut..];
    forall i | 0 <= i < |back| ensures Holds(Ready, back[i]) {
      assert i > 0 ==> Rank(s[cut], h) <= Rank(s[cut + i], h);
    }
    CountAll(back, Ready);
  }

  /** Dropping a prefix of a list in deletion order drops the unready Pods first. */
  lemma {:induction false} ReadyAfterDrop(s: seq<Pod>, h: string, cut: nat)
    requires RankSorted(s, h) && cut <= |s|
    ensures Count(s[cut..], Ready) == if Count(s, Ready) <= |s| - cut then Count(s, Ready) else |s| - cut
  {
    assert s == s[..cut] + s[cut..];
    SelectConcat(s[..cut], s[cut..], Ready);
    CountAtMostLength(s[cut..], Ready);
    if cut < |s| {
      if s[cut].ready { ReadySuffix(s, h, cut); } else { UnreadyPrefix(s, h, cut, Ready); }
    }
  }

  /** In deletion order the stale Pods are the unready stale ones followed by the ready stale ones. */
  lemma {:induction false} StaleUnreadyFirst(s: seq<Pod>, h: string)
    requires RankSorted(s, h)
    ensures Select(s, Stale(h)) == Select(s, UnreadyStale(h)) + Select(s, ReadyStale(h))
  {
    if s != [] {
      StaleUnreadyFirst(s[..|s| - 1], h);
      if !s[|s| - 1].ready { UnreadyPrefix(s, h, |s| - 1, ReadyStale(h)); }
    }
  }

  // ----- counting survivors

  lemma {:induction false} SurvivorMembers(s: seq<Pod>, gone: seq<Pod>, p: Pod)
    ensures p in Survivors(s, gone) <==> p in s && p !in gone
  {
    if s != [] {
      SurvivorMembers(s[..|s| - 1], gone, p);
      assert s == s[..|s| - 1] + [s[|s| - 1]];
    }
  }

  lemma {:induction false} SurvivorsDistinct(s: seq<Pod>, gone: seq<Pod>)
    requires DistinctKeys(s)
    ensures DistinctKeys(Survivors(s, gone))
  {
    if s != [] {
      SurvivorsDistinct(s[..|s| - 1], gone);
      forall p | p in Survivors(s[..|s| - 1], gone) ensures p.key != s[|s| - 1].key {
        SurvivorMembers(s[..|s| - 1], gone, p);
      }
    }
  }

  lemma {:induction false} SurvivorsConcat(s: seq<Pod>, t: seq<Pod>, gone: seq<Pod>)
    ensures Survivors(s + t, gone) == Survivors(s, gone) + Survivors(t, gone)
  {
    if t == [] {
      assert s + t == s;
    } else {
      SurvivorsConcat(s, t[..|t| - 1], gone);
      assert (s + t)[..|s + t| - 1] == s + t[..|t| - 1];
    }
  }

  lemma {:induction false} AllGone(s: seq<Pod>, gone: seq<Pod>)
    requires forall p :: p in s ==> p in gone
    ensures Survivors(s, gone) == []
  {
    if s != [] { AllGone(s[..|s| - 1], gone); }
  }

  /** A kind of Pod all of which is deleted leaves no survivors. */
  lemma {:induction false} KindGone(s: seq<Pod>, gone: seq<Pod>, q: Query)
    requires forall p :: p in s && Holds(q, p) ==> p in gone
    ensures Count(Survivors(s, gone), q) == 0
  {
    forall p | p in Survivors(s, gone) ensures !Holds(q, p) { SurvivorMembers(s, gone, p); }
    CountAtMostLength(Survivors(s, gone), q);
  }

  /** A kind of Pod none of which is deleted survives in full. */
  lemma {:induction false} KindKept(s: seq<Pod>, gone: seq<Pod>, q: Query)
    requires forall p :: p in s && Holds(q, p) ==> p !in gone
    ensures Count(Survivors(s, gone), q) == Count(s, q)
  {
    if s != [] {
      KindKept(s[..|s| - 1], gone, q);
      var v := Survivors(s[..|s| - 1], gone);
      assert v + [] == v && (v + [s[|s| - 1]])[..|v|] == v;
    }
  }

  /** A kind of Pod of which exactly one is deleted loses exactly one. */
  lemma {:induction false} KindLosesOne(s: seq<Pod>, gone: seq<Pod>, q: Query, x: Pod)
    requires DistinctKeys(s) && x in s && Holds(q, x) && x in gone
    requires forall p :: p in s && Holds(q, p) && p != x ==> p !in gone
    ensures Count(Survivors(s, gone), q) == Count(s, q) - 1
  {
    var front, last := s[..|s| - 1], s[|s| - 1];
    var v := Survivors(front, gone);
    assert s == front + [last];
    if last == x {
      assert x !in front;
      KindKept(front, gone, q);
      assert v + [] == v;
    } else {
      KindLosesOne(front, gone, q, x);
      assert v + [] == v && (v + [last])[..|v|] == v;
    }
  }
}
