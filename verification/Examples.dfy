/** A state on which finalize falls short of its comment. */
module Examples {
  import opened References
  import opened UnionFind
  import opened AbstractHeap
  import opened EarState
  import opened EarPartitions

  // ---- finalize on a chain of three hops ----

  lemma UnifyPlainRoots(h: Heap, a: Reference, b: Reference, h': Heap, lossless: bool)
    requires WellFormed(h) && a in h.partitions && b in h.partitions && a != b && a.Pos() <= b.Pos()
    requires h.partitions[a].fieldRefs == map[] && h.partitions[b].fieldRefs == map[]
    requires Unified(EnteredBoth(h, a, b), Root(h.parents, a), Root(h.parents, b), h', lossless)
    ensures h' == Linked(h, a, b)
  {
    assert EnteredBoth(h, a, b) == h;
    var work :| IsWorkList(work, map[], map[]) && (work == map[] ==> h' == Linked(h, a, b));
    assert work.Keys == {};
  }

  /** The entry of a fresh partition. */
  const PLAIN := PartitionInfo(1, map[])

  lemma HangOutcome(h0: Heap, a: Reference, b: Reference, h': Heap, lossless: bool)
    requires WellFormed(h0) && h0.partitions == map[a := PLAIN]
    requires b !in h0.parents && a.Pos() <= b.Pos()
    requires var h := Entered(h0, b);
      Unified(EnteredBoth(h, a, b), Root(h.parents, a), Root(h.parents, b), h', lossless)
    ensures h' == Heap(h0.parents[b := b][a := b], map[b := PLAIN])
  {
    hide Unified, Linked;
    var h := Entered(h0, b);
    assert h.partitions == map[a := PLAIN, b := PLAIN];
    UnifyPlainRoots(h, a, b, h', lossless);
    LinkPlain(h, a, b);
  }

  lemma LinkPlain(h: Heap, a: Reference, b: Reference)
    requires a != b && h.partitions == map[a := PLAIN, b := PLAIN]
    ensures Linked(h, a, b) == Heap(h.parents[a := b], map[b := PLAIN])
  {
    assert PLAIN.fieldRefs + PLAIN.fieldRefs == map[];
  }

  /** Inserts b and unifies it with a, the only representative so far. */
  method HangUnder(state: State, a: Reference, b: Reference)
    requires state.Valid() && state.partitions == map[a := PLAIN]
    requires b !in state.parents && a.Pos() <= b.Pos()
    modifies state
    ensures state.Valid()
    ensures state.Snapshot() == Heap(old(state.parents)[b := b][a := b], map[b := PLAIN])
  {
    hide Step, Unified, WellFormed;
    ghost var h0 := state.Snapshot();
    var _ := state.Insert(b);
    state.Unify(a, b);
    HangOutcome(h0, a, b, state.Snapshot(), state.Lossless());
  }

  /** Unifying references in source order, each before it is looked up again, builds a chain of three hops. */
  method DeepChain(a: Reference, b: Reference, c: Reference, d: Reference) returns (state: State)
    requires a != b && c !in {a, b} && d !in {a, b, c}
    requires a.Pos() <= b.Pos() <= c.Pos() <= d.Pos()
    ensures fresh(state) && state.Valid()
    ensures state.parents == map[a := b, b := c, c := d, d := d] && state.partitions == map[d := PLAIN]
  {
    hide WellFormed;
    state := new State();
    var _ := state.Insert(a);
    HangUnder(state, a, b);
    HangUnder(state, b, c);
    HangUnder(state, c, d);
  }

  /** On that state finalize maps a to its grandparent, which is no representative, instead of to d. */
  method FinalizeMissesRepresentative(a: Reference, b: Reference, c: Reference, d: Reference)
    returns (p: Partitions, state: State)
    requires a != b && c !in {a, b} && d !in {a, b, c}
    requires a.Pos() <= b.Pos() <= c.Pos() <= d.Pos()
    ensures state.Valid() && a in p.parents
    ensures p.parents[a] == c && Root(state.parents, a) == d
    ensures c in p.members && c !in state.partitions
  {
    state := DeepChain(a, b, c, d);
    ghost var q := state.parents;
    RootOfChain(q, a, b, c, d);
    assert Targets(state.Snapshot()) == {};
    p := new Partitions(state.parents, state.partitions);
    p.Finalize();
    assert p.parents[a] == Grandparent(q, a);
    assert c in p.parents.Values;
  }

  lemma RootOfChain(q: ParentMap, a: Reference, b: Reference, c: Reference, d: Reference)
    requires a != b && c !in {a, b} && d !in {a, b, c}
    requires IsForest(q) && q == map[a := b, b := c, c := d, d := d]
    ensures Root(q, a) == d && Grandparent(q, a) == c
  {
    assert Root(q, c) == d;
    assert Root(q, b) == d;
  }
}
