/** The hash ring over whole histories of joins and leaves (internal/loadbalancer/balance_chwbl.go),
    when nothing is assumed of the hash function.  The array is taken as the multiset it holds.

    A lookup walks the array while the map is not empty, and panics on an entry whose owner is not
    in the group.  `CanPanic` names the rings that let it; `Group` ties it to the lookup. */
module RingHistory {
  import opened HashRing

  datatype Ring = Ring(names: set<string>, owner: map<Hash, string>, points: multiset<Hash>)

  datatype Change = Join(name: string) | Leave(name: string)

  const NO_RING := Ring({}, map[], multiset{})

  /** What the two ring operations of a group do to its map and its array. */
  function Apply(hash: HashFn, count: nat, r: Ring, c: Change): Ring {
    var points := Points(hash, c.name, count);
    match c
    case Join(name) => Ring(r.names + {name}, r.owner + Owned(points, name), r.points + multiset(points))
    case Leave(name) => Ring(r.names - {name}, r.owner - Elements(points), r.points - multiset(points))
  }

  function After(hash: HashFn, count: nat, changes: seq<Change>): Ring {
    if changes == [] then NO_RING else Apply(hash, count, After(hash, count, changes[..|changes| - 1]), changes[|changes| - 1])
  }

  /** Only names of `all` come and go; only absent names join and only present ones leave. */
  predicate History(hash: HashFn, count: nat, all: set<string>, changes: seq<Change>) {
    changes != [] ==>
      var front, c := changes[..|changes| - 1], changes[|changes| - 1];
      && History(hash, count, all, front) && c.name in all
      && (c.Join? <==> c.name !in After(hash, count, front).names)
  }

  /** Every change of a history is allowed where it happens. */
  lemma {:induction false} HistoryAt(hash: HashFn, count: nat, all: set<string>, changes: seq<Change>, i: nat)
    requires History(hash, count, all, changes) && i < |changes|
    ensures History(hash, count, all, changes[..i]) && changes[i].name in all
    ensures changes[i].Join? <==> changes[i].name !in After(hash, count, changes[..i]).names
    ensures After(hash, count, changes[..i + 1]) == Apply(hash, count, After(hash, count, changes[..i]), changes[i])
  {
    var front := changes[..|changes| - 1];
    if i < |front| {
      HistoryAt(hash, count, all, front, i);
      assert front[..i] == changes[..i] && front[..i + 1] == changes[..i + 1];
    } else {
      assert changes[..i] == front && changes[..i + 1] == changes;
    }
  }

  ghost predicate Reaches(hash: HashFn, count: nat, all: set<string>, r: Ring) {
    exists changes :: History(hash, count, all, changes) && After(hash, count, changes) == r
  }

  ghost predicate EveryPointOwned(r: Ring) {
    forall h :: h in r.points ==> h in r.owner && r.owner[h] in r.names
  }

  /** Virtual nodes of different names never share a hash; those of one name may. */
  ghost predicate NamesNeverCollide(hash: HashFn, names: set<string>, count: nat) {
    forall a, b, i: nat, j: nat ::
      a in names && b in names && i < count && j < count && VNode(hash, a, i) == VNode(hash, b, j) ==> a == b
  }

  /** The array holds each virtual node as often as its name has it, and nothing else. */
  ghost predicate PointsOf(hash: HashFn, names: set<string>, count: nat, points: multiset<Hash>) {
    && (forall h :: h in points ==> h in VNodes(hash, names, count))
    && (forall name, h :: name in names && h in VNodes(hash, {name}, count) ==> points[h] == multiset(Points(hash, name, count))[h])
  }

  ghost predicate Sound(hash: HashFn, count: nat, all: set<string>, r: Ring) {
    r.names <= all && OwnersOf(hash, r.names, count, r.owner) && PointsOf(hash, r.names, count, r.points)
  }

  lemma OthersAreDisjoint(hash: HashFn, count: nat, all: set<string>, names: set<string>, name: string)
    requires NamesNeverCollide(hash, all, count) && names <= all && name in all && name !in names
    ensures VNodes(hash, names, count) !! VNodes(hash, {name}, count)
  {
  }

  lemma PointsGrow(hash: HashFn, names: set<string>, name: string, count: nat, points: multiset<Hash>)
    requires VNodes(hash, names, count) !! VNodes(hash, {name}, count) && name !in names
    requires PointsOf(hash, names, count, points)
    ensures PointsOf(hash, names + {name}, count, points + multiset(Points(hash, name, count)))
  {
    PointsAreVNodes(hash, name, count);
    VNodesSplit(hash, names, name, count);
    var added: multiset<Hash> := multiset(Points(hash, name, count));
    hide VNodes, Points;
    forall h: Hash ensures h in added <==> h in VNodes(hash, {name}, count) { assert h in added <==> h in Points(hash, name, count); }
    forall n, h: Hash | n in names + {name} && h in VNodes(hash, {n}, count)
      ensures (points + added)[h] == multiset(Points(hash, n, count))[h]
    {
      if n == name {
        assert h !in points && points[h] == 0;
      } else {
        VNodesFewer(hash, {n}, names, count);
        assert h !in added && added[h] == 0;
      }
    }
  }

  lemma PointsShrink(hash: HashFn, names: set<string>, name: string, count: nat, points: multiset<Hash>)
    requires VNodes(hash, names, count) !! VNodes(hash, {name}, count) && name !in names
    requires PointsOf(hash, names + {name}, count, points)
    ensures PointsOf(hash, names, count, points - multiset(Points(hash, name, count)))
  {
    PointsAreVNodes(hash, name, count);
    VNodesSplit(hash, names, name, count);
    var removed: multiset<Hash> := multiset(Points(hash, name, count));
    hide VNodes, Points;
    forall h: Hash ensures h in removed <==> h in VNodes(hash, {name}, count) { assert h in removed <==> h in Points(hash, name, count); }
    forall n, h: Hash | n in names && h in VNodes(hash, {n}, count)
      ensures (points - removed)[h] == multiset(Points(hash, n, count))[h]
    {
      VNodesFewer(hash, {n}, names, count);
      assert h !in removed && removed[h] == 0;
    }
  }

  lemma VNodesFewer(hash: HashFn, fewer: set<string>, names: set<string>, count: nat)
    requires fewer <= names
    ensures VNodes(hash, fewer, count) <= VNodes(hash, names, count)
  {
  }

  lemma ApplySound(hash: HashFn, count: nat, all: set<string>, r: Ring, c: Change)
    requires NamesNeverCollide(hash, all, count) && Sound(hash, count, all, r) && c.name in all
    requires c.Join? <==> c.name !in r.names
    ensures Sound(hash, count, all, Apply(hash, count, r, c))
  {
    var r' := Apply(hash, count, r, c);
    var rest := r.names - {c.name};
    OthersAreDisjoint(hash, count, all, rest, c.name);
    hide NamesNeverCollide, OwnersOf, PointsOf, Points, VNodes;
    if c.Join? {
      assert rest == r.names;
      OwnersGrow(hash, rest, c.name, count, r.owner, r'.owner);
      PointsGrow(hash, rest, c.name, count, r.points);
    } else {
      assert rest + {c.name} == r.names;
      OwnersShrink(hash, rest, c.name, count, r.owner, r'.owner);
      PointsShrink(hash, rest, c.name, count, r.points);
    }
  }

  lemma {:induction false} SoundAlways(hash: HashFn, count: nat, all: set<string>, changes: seq<Change>)
    requires NamesNeverCollide(hash, all, count) && History(hash, count, all, changes)
    ensures Sound(hash, count, all, After(hash, count, changes))
  {
    if changes != [] {
      var front := changes[..|changes| - 1];
      SoundAlways(hash, count, all, front);
      ApplySound(hash, count, all, After(hash, count, front), changes[|changes| - 1]);
    }
  }

  lemma SoundIsOwned(hash: HashFn, count: nat, all: set<string>, r: Ring)
    requires Sound(hash, count, all, r)
    ensures EveryPointOwned(r)
  {
    forall h | h in r.points ensures h in r.owner && r.owner[h] in r.names {
      assert h in VNodes(hash, r.names, count);
      var name, i: nat :| name in r.names && i < count && VNode(hash, name, i) == h;
    }
  }

  // ----- what holds whatever the hash function

  /** Every entry of the map is in the array, belongs to a present name, and is a point of it. */
  ghost predicate Backed(hash: HashFn, count: nat, r: Ring) {
    forall h :: h in r.owner ==> h in r.points && r.owner[h] in r.names && h in Points(hash, r.owner[h], count)
  }

  lemma ApplyBacked(hash: HashFn, count: nat, r: Ring, c: Change)
    requires Backed(hash, count, r)
    ensures Backed(hash, count, Apply(hash, count, r, c))
  {
    var r', points := Apply(hash, count, r, c), Points(hash, c.name, count);
    hide Points;
    forall h | h in r'.owner ensures h in r'.points && r'.owner[h] in r'.names && h in Points(hash, r'.owner[h], count) {
      assert h in points <==> h in multiset(points);
    }
  }

  lemma {:induction false} BackedAlways(hash: HashFn, count: nat, changes: seq<Change>)
    ensures Backed(hash, count, After(hash, count, changes))
  {
    if changes != [] {
      BackedAlways(hash, count, changes[..|changes| - 1]);
      ApplyBacked(hash, count, After(hash, count, changes[..|changes| - 1]), changes[|changes| - 1]);
    }
  }

  // ----- when an entry can be without an owner

  lemma OneMore(hash: HashFn, count: nat, all: set<string>, changes: seq<Change>, c: Change) returns (longer: seq<Change>)
    requires History(hash, count, all, changes) && c.name in all
    requires c.Join? <==> c.name !in After(hash, count, changes).names
    ensures History(hash, count, all, longer)
    ensures After(hash, count, longer) == Apply(hash, count, After(hash, count, changes), c)
  {
    longer := changes + [c];
    assert longer[..|longer| - 1] == changes;
  }

  lemma NamesAfter(hash: HashFn, count: nat, r: Ring, c: Change)
    ensures Apply(hash, count, r, c).names == if c.Join? then r.names + {c.name} else r.names - {c.name}
  {
  }

  function JoinJoinLeave(hash: HashFn, count: nat, a: string, b: string): Ring {
    Apply(hash, count, Apply(hash, count, Apply(hash, count, NO_RING, Join(a)), Join(b)), Leave(b))
  }

  lemma EntryLeftBehind(hash: HashFn, count: nat, a: string, b: string, i: nat, j: nat)
    requires a != b && i < count && j < count && VNode(hash, a, i) == VNode(hash, b, j)
    ensures !EveryPointOwned(JoinJoinLeave(hash, count, a, b))
  {
    CollisionLeavesDanglingPoint(hash, a, b, count, i, j);
    var owned, points := Owned(Points(hash, a, count), a), multiset(Points(hash, a, count));
    hide Points, Owned, Elements, VNode;
    assert map[] + owned == owned && multiset{} + points == points;
    var r := JoinJoinLeave(hash, count, a, b);
    assert VNode(hash, a, i) in r.points && VNode(hash, a, i) !in r.owner;
  }

  lemma ReachesOneMore(hash: HashFn, count: nat, all: set<string>, r: Ring, c: Change)
    requires Reaches(hash, count, all, r) && c.name in all && (c.Join? <==> c.name !in r.names)
    ensures Reaches(hash, count, all, Apply(hash, count, r, c))
  {
    var changes :| History(hash, count, all, changes) && After(hash, count, changes) == r;
    var longer := OneMore(hash, count, all, changes, c);
  }

  lemma NoHistory(hash: HashFn, count: nat, all: set<string>)
    ensures History(hash, count, all, []) && After(hash, count, []) == NO_RING
  {
  }

  lemma ReachJoinJoin(hash: HashFn, count: nat, all: set<string>, a: string, b: string) returns (changes: seq<Change>)
    requires a in all && b in all && a != b
    ensures History(hash, count, all, changes)
    ensures After(hash, count, changes) == Apply(hash, count, Apply(hash, count, NO_RING, Join(a)), Join(b))
    ensures After(hash, count, changes).names == {a, b}
  {
    NoHistory(hash, count, all);
    hide Apply, After, History;
    changes := OneMore(hash, count, all, [], Join(a));
    var r := After(hash, count, changes);
    NamesAfter(hash, count, NO_RING, Join(a));
    assert r.names == {a};
    changes := OneMore(hash, count, all, changes, Join(b));
    NamesAfter(hash, count, r, Join(b));
  }

  lemma ReachJoinJoinLeave(hash: HashFn, count: nat, all: set<string>, a: string, b: string) returns (changes: seq<Change>)
    requires a in all && b in all && a != b
    ensures History(hash, count, all, changes) && After(hash, count, changes) == JoinJoinLeave(hash, count, a, b)
    ensures After(hash, count, changes).names == {a}
  {
    changes := ReachJoinJoin(hash, count, all, a, b);
    hide Apply, After, History;
    var r := After(hash, count, changes);
    changes := OneMore(hash, count, all, changes, Leave(b));
    NamesAfter(hash, count, r, Leave(b));
  }

  /** Two names that collide: both join, one leaves, and an entry of the other has no owner. */
  lemma CollidingHistory(hash: HashFn, count: nat, all: set<string>, a: string, b: string, i: nat, j: nat) returns (changes: seq<Change>)
    requires a in all && b in all && a != b && i < count && j < count && VNode(hash, a, i) == VNode(hash, b, j)
    ensures History(hash, count, all, changes) && !EveryPointOwned(After(hash, count, changes))
  {
    EntryLeftBehind(hash, count, a, b, i, j);
    changes := ReachJoinJoinLeave(hash, count, all, a, b);
  }

  ghost predicate NeverDangles(hash: HashFn, count: nat, all: set<string>) {
    forall changes :: History(hash, count, all, changes) ==> EveryPointOwned(After(hash, count, changes))
  }

  /** No history of joins and leaves leaves an array entry without an owner in the group, if and
      only if virtual nodes of different names never share a hash. */
  lemma NeverDanglesIff(hash: HashFn, count: nat, all: set<string>)
    ensures NeverDangles(hash, count, all) <==> NamesNeverCollide(hash, all, count)
  {
    hide History, After, EveryPointOwned, Sound;
    if NamesNeverCollide(hash, all, count) {
      forall changes | History(hash, count, all, changes) ensures EveryPointOwned(After(hash, count, changes)) {
        SoundAlways(hash, count, all, changes);
        SoundIsOwned(hash, count, all, After(hash, count, changes));
      }
    } else {
      var a, b, i: nat, j: nat :|
        a in all && b in all && i < count && j < count && VNode(hash, a, i) == VNode(hash, b, j) && a != b;
      var changes := CollidingHistory(hash, count, all, a, b, i, j);
    }
  }

  // ----- when a lookup can panic

  /** The lookup gets past its first test, and there is an entry it can panic on. */
  ghost predicate CanPanic(r: Ring) { r.owner != map[] && !EveryPointOwned(r) }

  ghost predicate NeverPanics(hash: HashFn, count: nat, all: set<string>) {
    forall changes :: History(hash, count, all, changes) ==> !CanPanic(After(hash, count, changes))
  }

  /** All names have the same points. */
  ghost predicate AllCoincide(hash: HashFn, names: set<string>, count: nat) {
    forall a, b :: a in names && b in names ==> Elements(Points(hash, a, count)) == Elements(Points(hash, b, count))
  }

  /** The map is empty, or it has an entry for every point of the one set there is. */
  ghost predicate AllOrNothing(hash: HashFn, count: nat, x: string, r: Ring) {
    && (forall h :: h in r.points ==> h in Points(hash, x, count))
    && (r.owner == map[] || r.owner.Keys == Elements(Points(hash, x, count)))
  }

  lemma ApplyAllOrNothing(hash: HashFn, count: nat, x: string, r: Ring, c: Change)
    requires AllOrNothing(hash, count, x, r) && Elements(Points(hash, c.name, count)) == Elements(Points(hash, x, count))
    ensures AllOrNothing(hash, count, x, Apply(hash, count, r, c))
  {
    var r', points := Apply(hash, count, r, c), Points(hash, c.name, count);
    hide Points;
    forall h | h in r'.points ensures h in Points(hash, x, count) {
      assert h in multiset(points) <==> h in points;
      assert h in points <==> h in Elements(points);
      assert h in Points(hash, x, count) <==> h in Elements(Points(hash, x, count));
    }
    if c.Join? {
      assert r'.owner.Keys == r.owner.Keys + Elements(points);
    } else {
      assert r'.owner.Keys == r.owner.Keys - Elements(points);
      assert r'.owner.Keys == {};
    }
  }

  lemma {:induction false} CoincidingHistory(hash: HashFn, count: nat, all: set<string>, x: string, changes: seq<Change>)
    requires AllCoincide(hash, all, count) && x in all && History(hash, count, all, changes)
    ensures AllOrNothing(hash, count, x, After(hash, count, changes))
  {
    if changes != [] {
      var front := changes[..|changes| - 1];
      CoincidingHistory(hash, count, all, x, front);
      ApplyAllOrNothing(hash, count, x, After(hash, count, front), changes[|changes| - 1]);
    }
  }

  lemma AllOrNothingIsSafe(hash: HashFn, count: nat, x: string, r: Ring)
    requires AllOrNothing(hash, count, x, r) && Backed(hash, count, r)
    ensures !CanPanic(r)
  {
    hide Points;
  }

  /** The point of `a` that is in the array and not in the map once `b` has come and gone. */
  lemma LeftBehind(hash: HashFn, count: nat, a: string, b: string, h: Hash)
    requires a != b && h in Points(hash, a, count) && h in Points(hash, b, count)
    ensures var r := JoinJoinLeave(hash, count, a, b);
            h in r.points && h !in r.owner && r.owner.Keys == Elements(Points(hash, a, count)) - Elements(Points(hash, b, count))
  {
    var r, p, q := JoinJoinLeave(hash, count, a, b), Points(hash, a, count), Points(hash, b, count);
    hide Points;
    assert r.points == multiset(p);
    assert r.owner.Keys == (Elements(p) + Elements(q)) - Elements(q);
  }

  /** `a` has a point that `b` lacks beside the one they share: with `b` gone a lookup can panic. */
  lemma PairPanics(hash: HashFn, count: nat, all: set<string>, a: string, b: string, h: Hash, own: Hash) returns (changes: seq<Change>)
    requires a in all && b in all && a != b && h in Points(hash, a, count) && h in Points(hash, b, count)
    requires own in Points(hash, a, count) && own !in Points(hash, b, count)
    ensures History(hash, count, all, changes) && CanPanic(After(hash, count, changes))
  {
    changes := ReachJoinJoinLeave(hash, count, all, a, b);
    LeftBehind(hash, count, a, b, h);
    hide History, After, JoinJoinLeave, Points;
    assert own in After(hash, count, changes).owner.Keys;
  }

  /** `a` and `b` share a point that `c` lacks: with `b` gone and `c` come a lookup can panic. */
  lemma ThirdNamePanics(hash: HashFn, count: nat, all: set<string>, a: string, b: string, c: string, h: Hash) returns (changes: seq<Change>)
    requires a in all && b in all && c in all && a != b && c != a && count > 0
    requires h in Points(hash, a, count) && h in Points(hash, b, count) && h !in Points(hash, c, count)
    ensures History(hash, count, all, changes) && CanPanic(After(hash, count, changes))
  {
    changes := ReachJoinJoinLeave(hash, count, all, a, b);
    LeftBehind(hash, count, a, b, h);
    var r := After(hash, count, changes);
    hide History, After, JoinJoinLeave;
    changes := OneMore(hash, count, all, changes, Join(c));
    JoinKeepsLeftBehind(hash, count, r, c, h);
  }

  lemma JoinKeepsLeftBehind(hash: HashFn, count: nat, r: Ring, c: string, h: Hash)
    requires count > 0 && h in r.points && h !in r.owner && h !in Points(hash, c, count)
    ensures CanPanic(Apply(hash, count, r, Join(c)))
  {
    var points := Points(hash, c, count);
    assert points[0] in Owned(points, c);
    hide Points;
    assert points[0] in Apply(hash, count, r, Join(c)).owner;
  }

  lemma CollisionPanics(hash: HashFn, count: nat, all: set<string>, a: string, b: string, h: Hash) returns (changes: seq<Change>)
    requires a in all && b in all && a != b && count > 0
    requires h in Points(hash, a, count) && h in Points(hash, b, count) && !AllCoincide(hash, all, count)
    ensures History(hash, count, all, changes) && CanPanic(After(hash, count, changes))
  {
    hide Points, History, After, CanPanic;
    var p, q := Elements(Points(hash, a, count)), Elements(Points(hash, b, count));
    if own :| own in p && own !in q {
      changes := PairPanics(hash, count, all, a, b, h, own);
    } else if own :| own in q && own !in p {
      changes := PairPanics(hash, count, all, b, a, h, own);
    } else {
      assert p == q;
      var c :| c in all && Elements(Points(hash, c, count)) != p;
      changes := OddOneOut(hash, count, all, a, b, c, h);
    }
  }

  /** `a` and `b` have the same points, `c` others. */
  lemma OddOneOut(hash: HashFn, count: nat, all: set<string>, a: string, b: string, c: string, h: Hash) returns (changes: seq<Change>)
    requires a in all && b in all && c in all && a != b && count > 0 && h in Points(hash, a, count)
    requires Elements(Points(hash, a, count)) == Elements(Points(hash, b, count)) != Elements(Points(hash, c, count))
    ensures History(hash, count, all, changes) && CanPanic(After(hash, count, changes))
  {
    hide Points, History, After, CanPanic;
    var p, q := Elements(Points(hash, a, count)), Elements(Points(hash, c, count));
    assert c != a && h in Elements(Points(hash, b, count));
    if h !in Points(hash, c, count) {
      changes := ThirdNamePanics(hash, count, all, a, b, c, h);
    } else if own :| own in p && own !in q {
      changes := PairPanics(hash, count, all, a, c, h, own);
    } else {
      var own :| own in q && own !in p;
      changes := PairPanics(hash, count, all, c, a, h, own);
    }
  }

  /** Exactly when no lookup can panic after any history: virtual nodes of different names never
      share a hash, or all names share all of them, so that any departure empties the map. */
  lemma NeverPanicsIff(hash: HashFn, count: nat, all: set<string>)
    ensures NeverPanics(hash, count, all) <==> NamesNeverCollide(hash, all, count) || AllCoincide(hash, all, count)
  {
    hide History, After, EveryPointOwned, AllOrNothing, Backed, Points, AllCoincide;
    if NamesNeverCollide(hash, all, count) {
      NeverDanglesIff(hash, count, all);
    } else {
      var a, b, i: nat, j: nat :|
        a in all && b in all && i < count && j < count && VNode(hash, a, i) == VNode(hash, b, j) && a != b;
      if AllCoincide(hash, all, count) {
        forall changes | History(hash, count, all, changes) ensures !CanPanic(After(hash, count, changes)) {
          CoincidingHistory(hash, count, all, a, changes);
          BackedAlways(hash, count, changes);
          AllOrNothingIsSafe(hash, count, a, After(hash, count, changes));
        }
      } else {
        PointsMembers(hash, a, count, VNode(hash, a, i));
        PointsMembers(hash, b, count, VNode(hash, b, j));
        var changes := CollisionPanics(hash, count, all, a, b, VNode(hash, a, i));
      }
    }
  }
}
