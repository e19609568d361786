/** Parent maps: the forest underneath the partitions (internal/pkg/earpointer/state.go).
    A reference that was never inserted counts as its own root, so that insertion
    changes no root. */
module UnionFind {
  import opened References

  type ParentMap = map<Reference, Reference>

  /** No proper ancestor: never inserted, or its own parent. */
  predicate IsHead(p: ParentMap, r: Reference) {
    r !in p || p[r] == r
  }

  ghost predicate Descends(p: ParentMap, rank: map<Reference, nat>, r: Reference)
    requires r in p
  {
    r in rank && p[r] in p && p[r] in rank && (p[r] != r ==> rank[p[r]] < rank[r])
  }

  ghost predicate Ranked(p: ParentMap, rank: map<Reference, nat>) {
    forall r {:trigger Descends(p, rank, r)} :: r in p ==> Descends(p, rank, r)
  }

  /** Parents are inserted and climbing strictly decreases some rank: no cycles. */
  ghost predicate IsForest(p: ParentMap) {
    exists rank :: Ranked(p, rank)
  }

  ghost function Ranks(p: ParentMap): (rank: map<Reference, nat>)
    requires IsForest(p)
    ensures Ranked(p, rank)
  {
    var rank :| Ranked(p, rank);
    rank
  }

  ghost function Depth(p: ParentMap, r: Reference): nat
    requires IsForest(p)
  {
    if r in p then assert Descends(p, Ranks(p), r); Ranks(p)[r] else 0
  }

  lemma ParentIsHigher(p: ParentMap, r: Reference)
    requires IsForest(p) && r in p
    ensures p[r] in p
    ensures p[r] != r ==> Depth(p, p[r]) < Depth(p, r)
  {
    assert Descends(p, Ranks(p), r);
  }

  /** The end of the climb from r. */
  ghost function Root(p: ParentMap, r: Reference): (root: Reference)
    requires IsForest(p)
    ensures IsHead(p, root)
    ensures r in p <==> root in p
    decreases Depth(p, r)
  {
    if IsHead(p, r) then r else ParentIsHigher(p, r); Root(p, p[r])
  }

  lemma {:induction false} RootIsHigher(p: ParentMap, r: Reference)
    requires IsForest(p)
    ensures Root(p, r) == r || Depth(p, Root(p, r)) < Depth(p, r)
    decreases Depth(p, r)
  {
    if !IsHead(p, r) {
      ParentIsHigher(p, r);
      RootIsHigher(p, p[r]);
    }
  }

  /** n parent steps up from r. */
  ghost function Climb(p: ParentMap, r: Reference, n: nat): Reference
    decreases n
  {
    if n == 0 || r !in p then r else Climb(p, p[r], n - 1)
  }

  /** The parent chain is acyclic: climbing back to where one started only happens at a root. */
  lemma {:induction false} NoCycles(p: ParentMap, r: Reference, n: nat)
    requires IsForest(p)
    requires n > 0 && Climb(p, r, n) == r
    ensures IsHead(p, r)
  {
    if !IsHead(p, r) {
      ParentIsHigher(p, r);
      ClimbDescends(p, p[r], n - 1);
    }
  }

  lemma {:induction false} ClimbDescends(p: ParentMap, r: Reference, n: nat)
    requires IsForest(p)
    ensures Depth(p, Climb(p, r, n)) <= Depth(p, r)
    decreases n
  {
    if n > 0 && r in p {
      ParentIsHigher(p, r);
      ClimbDescends(p, p[r], n - 1);
    }
  }

  // ---- the three ways the parent map is written ----

  /** A parent map whose links stay within the trees of p, and whose heads are heads of p,
      has the roots of p. */
  lemma {:induction false} RootsAgree(p: ParentMap, q: ParentMap, x: Reference)
    requires IsForest(p) && IsForest(q)
    requires forall y {:trigger q[y]} :: y in q ==> Root(p, q[y]) == Root(p, y)
    requires forall y {:trigger IsHead(q, y)} :: IsHead(q, y) ==> IsHead(p, y)
    ensures Root(q, x) == Root(p, x)
    decreases Depth(q, x)
  {
    if !IsHead(q, x) {
      ParentIsHigher(q, x);
      RootsAgree(p, q, q[x]);
    }
  }

  /** The entry that a failed lookup creates. */
  lemma InsertKeepsRoots(p: ParentMap, r: Reference)
    requires IsForest(p) && r !in p
    ensures IsForest(p[r := r])
    ensures forall x :: Root(p[r := r], x) == Root(p, x)
  {
    var q := p[r := r];
    var rank := Ranks(p)[r := 0];
    forall x | x in q ensures Descends(q, rank, x) {
      assert x != r ==> Descends(p, Ranks(p), x);
    }
    assert Ranked(q, rank);
    forall x ensures Root(q, x) == Root(p, x) {
      RootsAgree(p, q, x);
    }
  }

  lemma RedirectIsRanked(p: ParentMap, rank: map<Reference, nat>, r: Reference, b: Reference)
    requires Ranked(p, rank) && r in p && b in p
    requires Descends(p, rank, r) && Descends(p, rank, b) && (b == r || rank[b] < rank[r])
    ensures Ranked(p[r := b], rank)
  {
    forall x | x in p ensures Descends(p[r := b], rank, x) {
      assert Descends(p, rank, x);
    }
  }

  /** Pointing an entry at its own root. */
  lemma ShortcutIsForest(p: ParentMap, r: Reference)
    requires IsForest(p) && r in p
    ensures IsForest(p[r := Root(p, r)])
  {
    RootIsHigher(p, r);
    assert Descends(p, Ranks(p), r) && Descends(p, Ranks(p), Root(p, r));
    RedirectIsRanked(p, Ranks(p), r, Root(p, r));
  }

  lemma ShortcutKeepsHeads(p: ParentMap, r: Reference, x: Reference)
    requires IsForest(p) && r in p
    ensures IsHead(p[r := Root(p, r)], x) <==> IsHead(p, x)
  {
    assert Root(p, r) == r <==> IsHead(p, r);
  }

  lemma ShortcutKeepsRoots(p: ParentMap, r: Reference)
    requires IsForest(p) && r in p
    ensures IsForest(p[r := Root(p, r)])
    ensures forall x :: Root(p[r := Root(p, r)], x) == Root(p, x)
    ensures forall x :: IsHead(p[r := Root(p, r)], x) <==> IsHead(p, x)
  {
    ShortcutIsForest(p, r);
    var q := p[r := Root(p, r)];
    forall x ensures IsHead(q, x) <==> IsHead(p, x) {
      ShortcutKeepsHeads(p, r, x);
    }
    forall x ensures Root(q, x) == Root(p, x) {
      RootsAgree(p, q, x);
    }
  }

  /** Hanging one root under another. */
  lemma LinkIsForest(p: ParentMap, a: Reference, b: Reference)
    requires IsForest(p) && a in p && b in p && a != b && p[a] == a && p[b] == b
    ensures IsForest(p[a := b])
  {
    var lifted := map x | x in p :: Depth(p, x) + if Root(p, x) == a then Depth(p, b) + 1 else 0;
    forall x | x in p ensures Descends(p, lifted, x) {
      ParentIsHigher(p, x);
    }
    RedirectIsRanked(p, lifted, a, b);
  }

  lemma {:induction false} LinkRoot(p: ParentMap, a: Reference, b: Reference, x: Reference)
    requires IsForest(p) && a in p && b in p && a != b && p[a] == a && p[b] == b
    requires IsForest(p[a := b])
    ensures Root(p[a := b], x) == if Root(p, x) == a then b else Root(p, x)
    decreases Depth(p, x)
  {
    if !IsHead(p, x) {
      ParentIsHigher(p, x);
      LinkRoot(p, a, b, p[x]);
    }
  }

  /** Linking merges exactly the two trees. */
  lemma LinkMergesRoots(p: ParentMap, a: Reference, b: Reference)
    requires IsForest(p) && a in p && b in p && a != b && p[a] == a && p[b] == b
    ensures IsForest(p[a := b])
    ensures forall x :: Root(p[a := b], x) == if Root(p, x) == a then b else Root(p, x)
  {
    LinkIsForest(p, a, b);
    forall x ensures Root(p[a := b], x) == if Root(p, x) == a then b else Root(p, x) {
      LinkRoot(p, a, b, x);
    }
  }

  // ---- path compression ----

  /** What a lookup of r leaves behind: every entry on the way points at the root. */
  ghost function Compress(p: ParentMap, r: Reference): ParentMap
    requires IsForest(p)
    decreases Depth(p, r)
  {
    if IsHead(p, r) then p else ParentIsHigher(p, r); Compress(p, p[r])[r := Root(p, r)]
  }

  lemma {:induction false} CompressKeepsRoots(p: ParentMap, r: Reference)
    requires IsForest(p)
    ensures IsForest(Compress(p, r)) && Compress(p, r).Keys == p.Keys
    ensures forall x :: Root(Compress(p, r), x) == Root(p, x)
    ensures forall x :: IsHead(Compress(p, r), x) <==> IsHead(p, x)
    decreases Depth(p, r)
  {
    if !IsHead(p, r) {
      ParentIsHigher(p, r);
      CompressKeepsRoots(p, p[r]);
      ShortcutKeepsRoots(Compress(p, p[r]), r);
    }
  }

  /** A compressed entry is on the path and points at its root; every other entry is untouched. */
  lemma {:induction false} CompressEntry(p: ParentMap, r: Reference, x: Reference)
    requires IsForest(p) && x in p
    ensures x in Compress(p, r)
    ensures (exists n: nat :: Climb(p, r, n) == x) ==> Compress(p, r)[x] == Root(p, x)
    ensures (forall n: nat :: Climb(p, r, n) != x) ==> Compress(p, r)[x] == p[x]
    decreases Depth(p, r)
  {
    CompressKeepsRoots(p, r);
    if IsHead(p, r) {
      if n: nat :| Climb(p, r, n) == x {
        ClimbHead(p, r, n);
      }
    } else {
      ParentIsHigher(p, r);
      CompressEntry(p, p[r], x);
      if n: nat :| Climb(p, r, n) == x {
        if x != r {
          assert Climb(p, p[r], n - 1) == x;
        }
      } else {
        assert Climb(p, r, 0) == r;
        forall n: nat ensures Climb(p, p[r], n) != x {
          assert Climb(p, p[r], n) == Climb(p, r, n + 1);
        }
      }
    }
  }

  lemma {:induction false} ClimbHead(p: ParentMap, r: Reference, n: nat)
    requires IsHead(p, r)
    ensures Climb(p, r, n) == r
  {
    if n > 0 && r in p {
      ClimbHead(p, r, n - 1);
    }
  }

  // ---- source positions ----

  /** No parent comes earlier in the source than its child. */
  ghost predicate PositionsRise(p: ParentMap) {
    forall r: Reference {:trigger p[r]} :: r in p ==> r.Pos() <= p[r].Pos()
  }

  lemma {:induction false} RootIsLater(p: ParentMap, r: Reference)
    requires IsForest(p) && PositionsRise(p)
    ensures r.Pos() <= Root(p, r).Pos()
    decreases Depth(p, r)
  {
    if !IsHead(p, r) {
      ParentIsHigher(p, r);
      RootIsLater(p, p[r]);
    }
  }

  lemma {:induction false} CompressKeepsPositions(p: ParentMap, r: Reference)
    requires IsForest(p) && PositionsRise(p)
    ensures PositionsRise(Compress(p, r))
    decreases Depth(p, r)
  {
    if !IsHead(p, r) {
      ParentIsHigher(p, r);
      CompressKeepsPositions(p, p[r]);
      RootIsLater(p, r);
    }
  }
}
