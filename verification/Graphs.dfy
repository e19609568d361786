/** Reachability, the meaning of the visited-set searches. */
module Graphs {

  type Relation<!T> = (T, T) -> bool

  /** A walk along next, as the list of its nodes. */
  ghost predicate IsWalk<T>(next: Relation<T>, walk: seq<T>) {
    walk != [] && forall i | 0 <= i < |walk| - 1 :: next(walk[i], walk[i + 1])
  }

  ghost predicate WalkFrom<T>(next: Relation<T>, a: T, walk: seq<T>, b: T) {
    IsWalk(next, walk) && walk[0] == a && walk[|walk| - 1] == b
  }

  ghost predicate Reach<T(!new)>(next: Relation<T>, a: T, b: T) {
    exists walk :: WalkFrom(next, a, walk, b)
  }

  /** By at least one edge. */
  ghost predicate ReachPlus<T(!new)>(next: Relation<T>, a: T, b: T) {
    exists c :: next(a, c) && Reach(next, c, b)
  }

  lemma ReachSelf<T(!new)>(next: Relation<T>, a: T)
    ensures Reach(next, a, a)
  {
    assert WalkFrom(next, a, [a], a);
  }

  lemma WalksJoin<T(!new)>(next: Relation<T>, a: T, v: seq<T>, b: T, w: seq<T>, c: T)
    requires WalkFrom(next, a, v, b) && WalkFrom(next, b, w, c)
    ensures WalkFrom(next, a, v + w[1..], c)
  {
    var u := v + w[1..];
    forall i | 0 <= i < |u| - 1 ensures next(u[i], u[i + 1]) {
      if i == |v| - 1 {
        assert u[i] == w[0] && u[i + 1] == w[1];
      } else if i >= |v| {
        assert u[i] == w[i - |v| + 1] && u[i + 1] == w[i - |v| + 2];
      }
    }
  }

  lemma ReachTransitive<T(!new)>(next: Relation<T>, a: T, b: T, c: T)
    requires Reach(next, a, b) && Reach(next, b, c)
    ensures Reach(next, a, c)
  {
    var v :| WalkFrom(next, a, v, b);
    var w :| WalkFrom(next, b, w, c);
    WalksJoin(next, a, v, b, w, c);
  }

  lemma ReachEdge<T(!new)>(next: Relation<T>, a: T, b: T)
    requires next(a, b)
    ensures Reach(next, a, b)
  {
    assert WalkFrom(next, a, [a, b], b);
  }

  lemma ReachByEdge<T(!new)>(next: Relation<T>, a: T, b: T, c: T)
    requires Reach(next, a, b) && next(b, c)
    ensures Reach(next, a, c)
  {
    ReachEdge(next, b, c);
    ReachTransitive(next, a, b, c);
  }

  lemma ReachSameRelation<T(!new)>(next: Relation<T>, next': Relation<T>, a: T, b: T)
    requires forall x, y :: next(x, y) <==> next'(x, y)
    ensures Reach(next, a, b) <==> Reach(next', a, b)
  {
    if walk :| WalkFrom(next, a, walk, b) {
      assert WalkFrom(next', a, walk, b);
    }
    if walk :| WalkFrom(next', a, walk, b) {
      assert WalkFrom(next, a, walk, b);
    }
  }

  /** A nonempty walk starts with an edge. */
  lemma ReachSplits<T(!new)>(next: Relation<T>, a: T, b: T)
    requires Reach(next, a, b)
    ensures a == b || ReachPlus(next, a, b)
  {
    var w :| WalkFrom(next, a, w, b);
    if |w| > 1 {
      assert WalkFrom(next, w[1], w[1..], b);
      assert next(a, w[1]) && Reach(next, w[1], b);
    }
  }

  lemma ReachPlusIsReach<T(!new)>(next: Relation<T>, a: T, b: T)
    requires ReachPlus(next, a, b)
    ensures Reach(next, a, b)
  {
    var c :| next(a, c) && Reach(next, c, b);
    ReachEdge(next, a, c);
    ReachTransitive(next, a, c, b);
  }

  /** Every edge out of a member of the set ends in it. */
  ghost predicate IsClosed<T(!new)>(next: Relation<T>, s: set<T>) {
    forall x, y | x in s && next(x, y) :: y in s
  }

  /** A closed set keeps what its members reach. */
  lemma {:induction false} ClosedKeepsReach<T(!new)>(next: Relation<T>, s: set<T>, a: T, b: T)
    requires IsClosed(next, s) && a in s && Reach(next, a, b)
    ensures b in s
  {
    var w :| WalkFrom(next, a, w, b);
    ClosedKeepsWalk(next, s, w, |w| - 1);
  }

  lemma {:induction false} ClosedKeepsWalk<T(!new)>(next: Relation<T>, s: set<T>, w: seq<T>, i: nat)
    requires IsClosed(next, s) && IsWalk(next, w) && w[0] in s && i < |w|
    ensures w[i] in s
    decreases i
  {
    if i > 0 {
      ClosedKeepsWalk(next, s, w, i - 1);
      assert next(w[i - 1], w[i - 1 + 1]);
    }
  }

  ghost predicate Distinct<T>(s: seq<T>) {
    forall i, j | 0 <= i < j < |s| :: s[i] != s[j]
  }

  ghost function Elements<T>(s: seq<T>): set<T> {
    set x | x in s
  }
}
