/** Merges whose work list loses a pair (internal/pkg/earpointer/state.go: mergeFieldMap): how it comes about, what it
    costs and when it does not matter. */
module LossyMerges {
  import opened References
  import opened UnionFind
  import opened AbstractHeap
  import opened EarState
  import opened Congruence
  import opened Visitor

  // ---- a merge that loses a pair ----

  const X := Field("x", None)
  const Y := Field("y", None)

  /** Two objects a and b: the fields x and y of a hold the same reference, those of b do not. */
  ghost predicate Crossed(h: Heap, a: Reference, b: Reference, v: Reference, w: Reference, w': Reference) {
    && WellFormed(h) && AreDistinct(a, b, v, w, w') && a.Pos() <= b.Pos()
    && (forall r {:trigger Root(h.parents, r)} :: Root(h.parents, r) == r)
    && Edges(h) == Crossing(a, b, v, w, w')
  }

  predicate AreDistinct(a: Reference, b: Reference, v: Reference, w: Reference, w': Reference) {
    a != b && v !in {a, b} && w !in {a, b, v} && w' !in {a, b, v, w}
  }

  ghost function Crossing(a: Reference, b: Reference, v: Reference, w: Reference, w': Reference): set<Edge> {
    {Edge(a, X, v)} + {Edge(b, X, w)} + ({Edge(a, Y, v)} + {Edge(b, Y, w')})
  }

  /** Four field constraints lead there from the empty heap. */
  method Cross(vis: Visitor, a: Value, b: Value, v: Value, w: Value, w': Value)
    requires vis.Valid() && vis.state.Snapshot() == EMPTY_HEAP && vis.state.merges == []
    requires v.shareable && w.shareable && w'.shareable && a.pos <= b.pos
    requires AreDistinct(Of(a), Of(b), Of(v), Of(w), Of(w'))
    modifies vis.state
    ensures vis.Valid() && Crossed(vis.state.Snapshot(), Of(a), Of(b), Of(v), Of(w), Of(w')) && vis.state.Lossless()
  {
    hide Step, Separable, TargetsShareNoField, PointeesSettled;
    vis.UnifyField(EmptyContext, a, X, v);
    ghost var h1, l1 := vis.state.Snapshot(), vis.state.Lossless();
    vis.UnifyField(EmptyContext, b, X, w);
    ghost var h2, l2 := vis.state.Snapshot(), vis.state.Lossless();
    EdgesThen(EMPTY_HEAP, {Edge(Of(a), X, Of(v))}, h1, l1, {Edge(Of(b), X, Of(w))}, h2, l2);
    vis.UnifyField(EmptyContext, a, Y, v);
    ghost var h3, l3 := vis.state.Snapshot(), vis.state.Lossless();
    vis.UnifyField(EmptyContext, b, Y, w');
    EdgesThen(h2, {Edge(Of(a), Y, Of(v))}, h3, l3, {Edge(Of(b), Y, Of(w'))}, vis.state.Snapshot(),
              vis.state.Lossless());
    EdgesThen(EMPTY_HEAP, {Edge(Of(a), X, Of(v))} + {Edge(Of(b), X, Of(w))}, h2, l2,
              {Edge(Of(a), Y, Of(v))} + {Edge(Of(b), Y, Of(w'))}, vis.state.Snapshot(), vis.state.Lossless());
    NothingMerged(vis.state, Of(a), Of(b), Of(v), Of(w), Of(w'));
    CrossedByRequests(vis.state.Snapshot(), Of(a), Of(b), Of(v), Of(w), Of(w'));
  }

  /** The reference of a value without a calling context. */
  function Of(v: Value): (r: Reference)
    ensures !r.Synthetic? && r.Value() == v
  {
    MakeReference(EmptyContext, v)
  }

  const APART: Classes := r => iset{r}

  lemma CrossingAllowsApart(a: Reference, b: Reference, v: Reference, w: Reference, w': Reference)
    requires AreDistinct(a, b, v, w, w') && WellFormed(EMPTY_HEAP)
    ensures Obeys(APART, EMPTY_HEAP, {}, Crossing(a, b, v, w, w'))
  {
    var N := Crossing(a, b, v, w, w');
    forall d, e | d in N && e in N && d.field == e.field && APART(d.obj) == APART(e.obj)
      ensures d.target == e.target
    {
      assert d.obj in APART(d.obj);
    }
    assert Edges(EMPTY_HEAP) + N == N;
  }

  lemma StaysFlat(h: Heap, a: Reference, b: Reference, v: Reference, w: Reference, w': Reference, lossless: bool)
    requires AreDistinct(a, b, v, w, w') && Step(EMPTY_HEAP, {}, Crossing(a, b, v, w, w'), h, lossless)
    ensures forall r {:trigger Root(h.parents, r)} :: Root(h.parents, r) == r
    ensures Edges(h) <= Crossing(a, b, v, w, w')
  {
    CrossingAllowsApart(a, b, v, w, w');
    var N := Edges(EMPTY_HEAP) + Crossing(a, b, v, w, w');
    forall r ensures Root(h.parents, r) == r {
      assert APART(Root(h.parents, r)) == APART(r);
      assert r in APART(r);
    }
    forall d <- Edges(h) ensures d in N {
      assert JustifiedBy(APART, d, N);
      var e :| e in N && e.field == d.field && APART(e.obj) == APART(d.obj) && APART(e.target) == APART(d.target);
      assert e.obj in APART(d.obj) && e.target in APART(d.target);
    }
  }

  lemma NothingMerged(state: State, a: Reference, b: Reference, v: Reference, w: Reference, w': Reference)
    requires state.Valid() && AreDistinct(a, b, v, w, w')
    requires Step(EMPTY_HEAP, {}, Crossing(a, b, v, w, w'), state.Snapshot(), state.Lossless())
    ensures state.Lossless()
  {
    var h := state.Snapshot();
    StaysFlat(h, a, b, v, w, w', state.Lossless());
    forall r ensures r in h.parents <==> r in h.partitions {
      assert Root(h.parents, r) == r;
    }
    assert h.parents.Keys == h.partitions.Keys;
  }

  lemma CrossedByRequests(h: Heap, a: Reference, b: Reference, v: Reference, w: Reference, w': Reference)
    requires AreDistinct(a, b, v, w, w') && a.Pos() <= b.Pos()
    requires Step(EMPTY_HEAP, {}, Crossing(a, b, v, w, w'), h, true)
    ensures Crossed(h, a, b, v, w, w')
  {
    StaysFlat(h, a, b, v, w, w', true);
    forall e <- Crossing(a, b, v, w, w') ensures e in Edges(h) {
      assert e in Edges(EMPTY_HEAP) + Crossing(a, b, v, w, w');
      assert HasEdge(h, e);
      EdgeOf(h, e.obj, e.field);
      assert Root(h.parents, e.obj) == e.obj;
      assert Root(h.parents, Fields(h, e.obj)[e.field]) == Root(h.parents, e.target);
    }
  }

  lemma CrossedFields(h: Heap, a: Reference, b: Reference, v: Reference, w: Reference, w': Reference)
    requires Crossed(h, a, b, v, w, w')
    ensures a in h.partitions && h.partitions[a].fieldRefs == map[X := v, Y := v]
    ensures b in h.partitions && h.partitions[b].fieldRefs == map[X := w, Y := w']
  {
    forall e ensures e in Crossing(a, b, v, w, w') <==>
        e.obj in h.partitions && e.field in h.partitions[e.obj].fieldRefs
        && h.partitions[e.obj].fieldRefs[e.field] == e.target
    {
      InEdges(h, e);
    }
    assert Edge(a, X, v) in Crossing(a, b, v, w, w') && Edge(a, Y, v) in Crossing(a, b, v, w, w');
    assert Edge(b, X, w) in Crossing(a, b, v, w, w') && Edge(b, Y, w') in Crossing(a, b, v, w, w');
    var fa, fb := h.partitions[a].fieldRefs, h.partitions[b].fieldRefs;
    assert forall f <- fa :: Edge(a, f, fa[f]) in Crossing(a, b, v, w, w');
    assert forall f <- fb :: Edge(b, f, fb[f]) in Crossing(a, b, v, w, w');
  }

  /** Every equivalence that unifies a and b and respects their fields relates the targets of b's fields,
      but no outcome of the merge does: one of the two pairs of the work list is overwritten. */
  lemma MergeLosesPair(h: Heap, a: Reference, b: Reference, v: Reference, w: Reference, w': Reference, h': Heap,
                       lossless: bool)
    requires Crossed(h, a, b, v, w, w') && Unified(h, a, b, h', lossless)
    ensures WellFormed(h') && !Same(h', w, w')
    ensures forall L | Obeys(L, h, {(a, b)}, {}) :: L(w) == L(w')
  {
    CrossedFields(h, a, b, v, w, w');
    forall L | Obeys(L, h, {(a, b)}, {}) ensures L(w) == L(w') {
      CrossedForces(h, a, b, v, w, w', L);
    }
    assert a != b && a.Pos() <= b.Pos();
    hide Step, Linked, Crossed;
    var work :| IsWorkList(work, h.partitions[a].fieldRefs, h.partitions[b].fieldRefs)
      && Step(Linked(h, a, b), WorkPairs(work), {}, h', lossless);
    CrossedOutcome(h, a, b, v, w, w', work, h', lossless);
  }

  lemma CrossedOutcome(h: Heap, a: Reference, b: Reference, v: Reference, w: Reference, w': Reference,
                       work: map<Reference, Reference>, h': Heap, lossless: bool)
    requires Crossed(h, a, b, v, w, w') && a in h.partitions && b in h.partitions
    requires IsWorkList(work, map[X := v, Y := v], map[X := w, Y := w'])
    requires Step(Linked(h, a, b), WorkPairs(work), {}, h', lossless)
    ensures WellFormed(h') && !Same(h', w, w')
  {
    hide Step, Linked, IsWorkList, Obeys, Same, Edges;
    OneOfTwo(work, v, w, w');
    var u := work[v];
    var L: Classes := r => if r == a then iset{b} else if r == v then iset{u} else iset{r};
    CrossedAllows(h, a, b, v, w, w', work, L);
    StaysApart(Linked(h, a, b), WorkPairs(work), h', lossless, L, w, w');
  }

  /** References that some possible partition keeps apart are not unified. */
  lemma StaysApart(h: Heap, P: set<Pair>, h': Heap, lossless: bool, L: Classes, a: Reference, b: Reference)
    requires Step(h, P, {}, h', lossless) && Obeys(L, h, P, {})
    requires L(a) == iset{a} && L(b) == iset{b} && a != b
    ensures WellFormed(h') && !Same(h', a, b)
  {
    assert L(Root(h'.parents, a)) == L(a) && L(Root(h'.parents, b)) == L(b);
    assert a in L(a) && a !in L(b);
  }

  lemma CrossedForces(h: Heap, a: Reference, b: Reference, v: Reference, w: Reference, w': Reference, L: Classes)
    requires Crossed(h, a, b, v, w, w') && Obeys(L, h, {(a, b)}, {})
    ensures L(w) == L(w')
  {
    var S := Edges(h) + {};
    assert (a, b) in {(a, b)};
    assert Edge(a, X, v) in S && Edge(b, X, w) in S;
    assert Edge(a, Y, v) in S && Edge(b, Y, w') in S;
  }

  lemma OneOfTwo(work: map<Reference, Reference>, v: Reference, w: Reference, w': Reference)
    requires IsWorkList(work, map[X := v, Y := v], map[X := w, Y := w'])
    ensures work == map[v := w] || work == map[v := w']
  {
    assert X in map[X := v, Y := v];
    assert work.Keys == {v};
  }

  lemma CrossedAllows(h: Heap, a: Reference, b: Reference, v: Reference, w: Reference, w': Reference,
                      work: map<Reference, Reference>, L: Classes)
    requires Crossed(h, a, b, v, w, w') && a in h.partitions && b in h.partitions
    requires work == map[v := w] || work == map[v := w']
    requires forall r :: L(r) == if r == a then iset{b} else if r == v then iset{work[v]} else iset{r}
    ensures WellFormed(Linked(h, a, b)) && Obeys(L, Linked(h, a, b), WorkPairs(work), {})
  {
    CrossedFields(h, a, b, v, w, w');
    CrossedRespects(h, a, b, L);
    CrossedEdgesMeet(h, a, b, v, w, w');
    hide Linked, Crossed, WellFormed;
  }

  lemma CrossedRespects(h: Heap, a: Reference, b: Reference, L: Classes)
    requires Mergeable(h, a, b) && (forall r {:trigger Root(h.parents, r)} :: Root(h.parents, r) == r) && L(a) == L(b)
    ensures WellFormed(Linked(h, a, b)) && Respects(L, Linked(h, a, b).parents)
  {
    LinkedHeap(h, a, b, a);
    hide Linked;
    forall r ensures L(Root(Linked(h, a, b).parents, r)) == L(r) {
      LinkedHeap(h, a, b, r);
      assert Root(h.parents, r) == r;
    }
  }

  lemma CrossedEdgesMeet(h: Heap, a: Reference, b: Reference, v: Reference, w: Reference, w': Reference)
    requires Crossed(h, a, b, v, w, w') && a in h.partitions && b in h.partitions
    ensures forall e <- Edges(Linked(h, a, b)) + {} ::
              e.obj == b && (e == Edge(b, X, w) || e == Edge(b, Y, w'))
  {
    CrossedFields(h, a, b, v, w, w');
    forall e | e in Edges(Linked(h, a, b)) + {} ensures e == Edge(b, X, w) || e == Edge(b, Y, w') {
      InEdges(Linked(h, a, b), e);
      InEdges(h, e);
    }
  }

  // ---- the same requests in two orders ----

  /** a and b are unified when all their fields are known: w and w' stay apart, though every congruence relates them. */
  method UnifyLate(a: Value, b: Value, v: Value, w: Value, w': Value) returns (vis: Visitor)
    requires v.shareable && w.shareable && w'.shareable && a.pos <= b.pos
    requires AreDistinct(Of(a), Of(b), Of(v), Of(w), Of(w'))
    ensures vis.state.Valid() && !vis.state.Lossless() && !Same(vis.state.Snapshot(), Of(w), Of(w'))
    ensures forall E | IsCongruence(E, {(Of(a), Of(b))}, Crossing(Of(a), Of(b), Of(v), Of(w), Of(w'))) ::
              E(Of(w), Of(w'))
  {
    hide Step, Unified, Crossed, Crossing, PointeesSettled, IsCongruence, Of, Separable, ShareNoField, WellFormed;
    vis := new Visitor(0);
    Cross(vis, a, b, v, w, w');
    ghost var h := vis.state.Snapshot();
    vis.state.Unify(Of(a), Of(b));
    LateOutcome(h, Of(a), Of(b), Of(v), Of(w), Of(w'), vis.state.Snapshot(), vis.state.Lossless());
    forall E | IsCongruence(E, {(Of(a), Of(b))}, Crossing(Of(a), Of(b), Of(v), Of(w), Of(w')))
      ensures E(Of(w), Of(w'))
    {
      CongruenceCrosses(E, Of(a), Of(b), Of(v), Of(w), Of(w'));
    }
  }

  lemma LateOutcome(h: Heap, a: Reference, b: Reference, v: Reference, w: Reference, w': Reference, h': Heap,
                    lossless: bool)
    requires Crossed(h, a, b, v, w, w') && Step(h, {(a, b)}, {}, h', lossless)
    requires Unified(EnteredBoth(h, a, b), Root(h.parents, a), Root(h.parents, b), h', lossless)
    ensures !lossless && !Same(h', w, w')
  {
    assert WellFormed(h);
    hide Step, Unified, Crossed, Crossing, Edges;
    CrossedFields(h, a, b, v, w, w');
    NothingEntered(h, a, b);
    MergeLosesPair(h, a, b, v, w, w', h', lossless);
    if lossless {
      PairHolds(h, a, b, {}, h');
      CrossedEdges(h, a, b, v, w, w');
      LosslessCrosses(h, a, b, v, w, w', {(a, b)}, {}, h');
    }
  }

  lemma CrossedEdges(h: Heap, a: Reference, b: Reference, v: Reference, w: Reference, w': Reference)
    requires Crossed(h, a, b, v, w, w')
    ensures Crossing(a, b, v, w, w') <= Edges(h) + {}
  {
  }

  lemma NothingEntered(h: Heap, a: Reference, b: Reference)
    requires WellFormed(h) && a in h.partitions && b in h.partitions
    ensures EnteredBoth(h, a, b) == h && Root(h.parents, a) == a && Root(h.parents, b) == b
  {
  }

  /** A lossless step from, or to, the crossing edges unifies w and w' once a and b are. */
  lemma LosslessCrosses(h: Heap, a: Reference, b: Reference, v: Reference, w: Reference, w': Reference,
                        P: set<Pair>, N: set<Edge>, h': Heap)
    requires Step(h, P, N, h', true) && Same(h', a, b)
    requires Crossing(a, b, v, w, w') <= Edges(h) + N
    ensures Same(h', w, w')
  {
    assert Edge(a, X, v) in Crossing(a, b, v, w, w') && Edge(b, X, w) in Crossing(a, b, v, w, w');
    assert Edge(a, Y, v) in Crossing(a, b, v, w, w') && Edge(b, Y, w') in Crossing(a, b, v, w, w');
    StepHasEdge(h, P, N, h', Edge(a, X, v));
    StepHasEdge(h, P, N, h', Edge(b, X, w));
    StepHasEdge(h, P, N, h', Edge(a, Y, v));
    StepHasEdge(h, P, N, h', Edge(b, Y, w'));
    hide Step, Crossing;
    EdgesMeet(h', Edge(a, X, v), Edge(b, X, w));
    EdgesMeet(h', Edge(a, Y, v), Edge(b, Y, w'));
  }

  lemma CongruenceCrosses(E: Relation, a: Reference, b: Reference, v: Reference, w: Reference, w': Reference)
    requires IsCongruence(E, {(a, b)}, Crossing(a, b, v, w, w'))
    ensures E(w, w')
  {
    assert (a, b) in {(a, b)};
    assert Edge(a, X, v) in Crossing(a, b, v, w, w') && Edge(b, X, w) in Crossing(a, b, v, w, w');
    assert Edge(a, Y, v) in Crossing(a, b, v, w, w') && Edge(b, Y, w') in Crossing(a, b, v, w, w');
    assert E(v, w) && E(v, w');
  }

  /** a and b are unified first: the same five requests lose nothing, and w and w' are unified. No condition on the
      requests that is blind to their order can tell the two apart. */
  method UnifyEarly(a: Value, b: Value, v: Value, w: Value, w': Value) returns (vis: Visitor)
    requires v.shareable && w.shareable && w'.shareable
    requires AreDistinct(Of(a), Of(b), Of(v), Of(w), Of(w'))
    ensures vis.Valid() && vis.state.Lossless() && Same(vis.state.Snapshot(), Of(w), Of(w'))
  {
    hide Step, Separable, TargetsShareNoField, PointeesSettled, WellFormed, MakeReference;
    ghost var A, B, V, W, W' := Of(a), Of(b), Of(v), Of(w), Of(w');
    vis := UnifyThenX(a, b, v, w);
    EarlyYFirst(vis.state.Snapshot(), A, B, V, W, W');
    FieldStep(vis, {(A, B)}, {Edge(A, X, V)} + {Edge(B, X, W)}, a, Y, v);
    EarlyYSecond(vis.state.Snapshot(), A, B, V, W, W');
    FieldStep(vis, {(A, B)}, {Edge(A, X, V)} + {Edge(B, X, W)} + {Edge(A, Y, V)}, b, Y, w');
    EarlyOutcome(A, B, V, W, W', vis.state.Snapshot());
  }

  /** The first three requests mention only one field. */
  method UnifyThenX(a: Value, b: Value, v: Value, w: Value) returns (vis: Visitor)
    requires v.shareable && w.shareable
    ensures fresh(vis) && fresh(vis.state) && vis.Valid() && vis.state.Lossless()
    ensures Step(EMPTY_HEAP, {(Of(a), Of(b))}, {Edge(Of(a), X, Of(v))} + {Edge(Of(b), X, Of(w))},
                 vis.state.Snapshot(), true)
  {
    hide Step, Separable, TargetsShareNoField, PointeesSettled, WellFormed, MakeReference;
    ghost var P, e1, e2 := {(Of(a), Of(b))}, Edge(Of(a), X, Of(v)), Edge(Of(b), X, Of(w));
    ghost var none: set<Edge> := {};
    OneFieldIsSeparable(P, none, X);
    OneFieldIsSeparable(P, none + {e1}, X);
    OneFieldIsSeparable(P, none + {e1} + {e2}, X);
    vis := new Visitor(0);
    vis.UnifyPlain(Of(a), Of(b));
    FieldStep(vis, P, none, a, X, v);
    FieldStep(vis, P, none + {e1}, b, X, w);
    assert none + {e1} == {e1};
  }

  /** One more field constraint of a run that loses nothing. */
  method FieldStep(vis: Visitor, ghost P: set<Pair>, ghost N: set<Edge>, obj: Value, f: Field, target: Value)
    requires vis.Valid() && vis.state.Lossless() && target.shareable
    requires Step(EMPTY_HEAP, P, N, vis.state.Snapshot(), true)
    requires Separable(EMPTY_HEAP, P, N + {Edge(Of(obj), f, Of(target))})
             || TargetsShareNoField(vis.state.Snapshot(), Of(obj), f, Of(target))
    modifies vis.state
    ensures vis.Valid() && vis.state.Lossless()
    ensures Step(EMPTY_HEAP, P, N + {Edge(Of(obj), f, Of(target))}, vis.state.Snapshot(), true)
  {
    hide Step, Separable, TargetsShareNoField, PointeesSettled, WellFormed, MakeReference;
    ghost var h, e := vis.state.Snapshot(), Edge(Of(obj), f, Of(target));
    SeparableNext(EMPTY_HEAP, P, N, h, true, {}, {e}, P, N + {e});
    vis.UnifyField(EmptyContext, obj, f, target);
    OneMoreEdge(EMPTY_HEAP, P, N, h, e, vis.state.Snapshot());
  }

  lemma OneMoreEdge(h: Heap, P: set<Pair>, N: set<Edge>, h1: Heap, e: Edge, h2: Heap)
    requires Step(h, P, N, h1, true) && Step(h1, {}, {e}, h2, true)
    ensures Step(h, P, N + {e}, h2, true)
  {
    StepThen(h, P, N, h1, true, {}, {e}, h2, true);
    assert P + {} == P;
  }

  lemma EarlyOutcome(a: Reference, b: Reference, v: Reference, w: Reference, w': Reference, h: Heap)
    requires Step(EMPTY_HEAP, {(a, b)}, {Edge(a, X, v)} + {Edge(b, X, w)} + {Edge(a, Y, v)} + {Edge(b, Y, w')}, h, true)
    ensures Same(h, w, w')
  {
    hide Step;
    var N := {Edge(a, X, v)} + {Edge(b, X, w)} + {Edge(a, Y, v)} + {Edge(b, Y, w')};
    PairHolds(EMPTY_HEAP, a, b, N, h);
    LosslessCrosses(EMPTY_HEAP, a, b, v, w, w', {(a, b)}, N, h);
  }

  lemma PairHolds(h: Heap, a: Reference, b: Reference, N: set<Edge>, h': Heap)
    requires Step(h, {(a, b)}, N, h', true)
    ensures Same(h', a, b)
  {
    assert (a, b) in {(a, b)};
  }

  /** Requests with one field only are separable: all references may be one class. */
  lemma OneFieldIsSeparable(P: set<Pair>, N: set<Edge>, f: Field)
    requires forall e <- N :: e.field == f
    ensures Separable(EMPTY_HEAP, P, N)
  {
    var all: Relation := (a, b) => true;
    ApartIsSeparable(all, P, N);
  }

  /** Objects in one class, everything else in another. */
  ghost function TwoClasses(a: Reference, b: Reference): Classes {
    r => if r == a || r == b then iset{a, b} else iset{}
  }

  lemma ClassOfObject(a: Reference, b: Reference, r: Reference)
    ensures TwoClasses(a, b)(r) == TwoClasses(a, b)(a) <==> r in {a, b}
  {
    assert a in TwoClasses(a, b)(a);
  }

  lemma TwoClassesObey(a: Reference, b: Reference, v: Reference, w: Reference, w': Reference, N: set<Edge>)
    requires AreDistinct(a, b, v, w, w') && N <= Crossing(a, b, v, w, w') && WellFormed(EMPTY_HEAP)
    ensures Obeys(TwoClasses(a, b), EMPTY_HEAP, {(a, b)}, N)
  {
    assert Edges(EMPTY_HEAP) + N == N;
    assert forall e <- N :: TwoClasses(a, b)(e.target) == iset{};
  }

  /** What is known of a heap in which some of the requests were honoured. */
  lemma EarlyShape(h: Heap, a: Reference, b: Reference, v: Reference, w: Reference, w': Reference, N: set<Edge>,
                   r: Reference, f: Field)
    requires AreDistinct(a, b, v, w, w') && N <= Crossing(a, b, v, w, w') && Step(EMPTY_HEAP, {(a, b)}, N, h, true)
    requires f in Fields(h, r)
    ensures r in {a, b} && Fields(h, r)[f] !in {a, b} && exists e <- N :: e.field == f
  {
    var L := TwoClasses(a, b);
    TwoClassesObey(a, b, v, w, w', N);
    StepIsForced(EMPTY_HEAP, {(a, b)}, N, h, true, L);
    EdgeOf(h, r, f);
    var d := Edge(Root(h.parents, r), f, Fields(h, r)[f]);
    assert L(Root(h.parents, r)) == L(r);
    assert Edges(EMPTY_HEAP) + N == N;
    hide *;
    var e := EarlyEdge(a, b, v, w, w', N, Edges(h), d);
    ClassOfObject(a, b, r);
    ClassOfObject(a, b, Root(h.parents, r));
  }

  lemma EarlyEdge(a: Reference, b: Reference, v: Reference, w: Reference, w': Reference, N: set<Edge>, S: set<Edge>,
                  d: Edge)
    returns (e: Edge)
    requires AreDistinct(a, b, v, w, w') && N <= Crossing(a, b, v, w, w')
    requires Justified(TwoClasses(a, b), S, N) && d in S
    ensures e in N && e.field == d.field && d.obj in {a, b} && d.target !in {a, b}
  {
    e := Justifier(TwoClasses(a, b), d, S, N);
    hide TwoClasses;
    ClassOfObject(a, b, e.obj);
    ClassOfObject(a, b, d.obj);
    ClassOfObject(a, b, e.target);
    ClassOfObject(a, b, d.target);
  }

  lemma EarlyYFirst(h: Heap, a: Reference, b: Reference, v: Reference, w: Reference, w': Reference)
    requires AreDistinct(a, b, v, w, w') && Step(EMPTY_HEAP, {(a, b)}, {Edge(a, X, v)} + {Edge(b, X, w)}, h, true)
    ensures TargetsShareNoField(h, a, Y, v)
  {
    if Y in Fields(h, a) {
      EarlyShape(h, a, b, v, w, w', {Edge(a, X, v)} + {Edge(b, X, w)}, a, Y);
    }
  }

  lemma EarlyYSecond(h: Heap, a: Reference, b: Reference, v: Reference, w: Reference, w': Reference)
    requires AreDistinct(a, b, v, w, w')
    requires Step(EMPTY_HEAP, {(a, b)}, {Edge(a, X, v)} + {Edge(b, X, w)} + {Edge(a, Y, v)}, h, true)
    ensures TargetsShareNoField(h, b, Y, w')
  {
    var N := {Edge(a, X, v)} + {Edge(b, X, w)} + {Edge(a, Y, v)};
    if f :| f in Fields(h, w') {
      EarlyShape(h, a, b, v, w, w', N, w', f);
    }
  }

  // ---- when a merge is complete ----

  /** The work list of a merge has room for the target of every shared field, up to classes, exactly when fields of the
      absorbed map that hold one reference lead to one class from the kept map; the iteration order is irrelevant. */
  lemma WorkListIsCompleteIff(p: ParentMap, work: map<Reference, Reference>, absorbed: FieldMap, kept: FieldMap)
    requires IsForest(p) && IsWorkList(work, absorbed, kept)
    ensures (forall k | k in absorbed && k in kept :: Root(p, work[absorbed[k]]) == Root(p, kept[k])) <==>
            Functional(p, absorbed, kept)
  {
    if Functional(p, absorbed, kept) {
      forall k | k in absorbed && k in kept ensures Root(p, work[absorbed[k]]) == Root(p, kept[k]) {
        WorkListCovers(p, work, absorbed, kept, k);
      }
    }
  }

  /** The pairs on the work list force those that were overwritten. */
  ghost predicate WorkSuffices(h: Heap, a: Reference, b: Reference, work: map<Reference, Reference>)
    requires Mergeable(h, a, b) && WellFormed(Linked(h, a, b))
  {
    var fa, fb := h.partitions[a].fieldRefs, h.partitions[b].fieldRefs;
    forall L, k | Obeys(L, Linked(h, a, b), WorkPairs(work), {}) && k in fa && k in fb :: L(fa[k]) == L(fb[k])
  }

  /** After a merge whose own unifications lose nothing all field edges hold exactly when the work list forces what it
      has no room for. */
  lemma MergeIsCompleteIff(h: Heap, a: Reference, b: Reference, work: map<Reference, Reference>, h': Heap)
    requires Mergeable(h, a, b) && IsWorkList(work, h.partitions[a].fieldRefs, h.partitions[b].fieldRefs)
    requires Step(Linked(h, a, b), WorkPairs(work), {}, h', true)
    ensures (forall e <- Edges(h) :: HasEdge(h', e)) <==> WorkSuffices(h, a, b, work)
  {
    if forall e <- Edges(h) :: HasEdge(h', e) {
      CompleteIsForced(h, a, b, work, h');
    }
    if WorkSuffices(h, a, b, work) {
      ForcedIsComplete(h, a, b, work, h');
    }
  }

  lemma CompleteIsForced(h: Heap, a: Reference, b: Reference, work: map<Reference, Reference>, h': Heap)
    requires Mergeable(h, a, b) && WellFormed(Linked(h, a, b)) && Step(Linked(h, a, b), WorkPairs(work), {}, h', true)
    requires forall e <- Edges(h) :: HasEdge(h', e)
    ensures WorkSuffices(h, a, b, work)
  {
    hide Step, Linked, Obeys, HasEdge, Edges;
    var fa, fb := h.partitions[a].fieldRefs, h.partitions[b].fieldRefs;
    forall L, k | Obeys(L, Linked(h, a, b), WorkPairs(work), {}) && k in fa && k in fb ensures L(fa[k]) == L(fb[k]) {
      TargetsMeet(h, a, b, work, h', k);
      ForcedBySame(Linked(h, a, b), WorkPairs(work), h', L, fa[k], fb[k]);
    }
  }

  lemma ForcedIsComplete(h: Heap, a: Reference, b: Reference, work: map<Reference, Reference>, h': Heap)
    requires Mergeable(h, a, b) && Step(Linked(h, a, b), WorkPairs(work), {}, h', true)
    requires WellFormed(Linked(h, a, b)) && WorkSuffices(h, a, b, work)
    ensures forall e <- Edges(h) :: HasEdge(h', e)
  {
    var fa, fb := h.partitions[a].fieldRefs, h.partitions[b].fieldRefs;
    var L := ClassOf(SameClass(h'));
    OutcomeObeys(Linked(h, a, b), WorkPairs(work), h');
    assert forall k | k in fa && k in fb :: L(fa[k]) == L(fb[k]);
    hide Step, Linked, Obeys, HasEdge, ClassOf;
    forall e <- Edges(h) ensures HasEdge(h', e) {
      if e.field in fa && e.field in fb {
        SameClasses(h', fa[e.field], fb[e.field]);
      }
      MergedEdge(h, a, b, work, h', e);
    }
  }

  /** The classes of a lossless outcome are a possible partition. */
  lemma OutcomeObeys(h: Heap, P: set<Pair>, h': Heap)
    requires Step(h, P, {}, h', true)
    ensures Obeys(ClassOf(SameClass(h')), h, P, {})
  {
    var L := ClassOf(SameClass(h'));
    forall r ensures L(Root(h.parents, r)) == L(r) {
      assert Root(h'.parents, Root(h.parents, r)) == Root(h'.parents, r);
      SameClasses(h', Root(h.parents, r), r);
    }
    forall p <- P ensures L(p.0) == L(p.1) {
      SameClasses(h', p.0, p.1);
    }
    hide ClassOf;
    forall d, e | d in Edges(h) + {} && e in Edges(h) + {} && d.field == e.field && L(d.obj) == L(e.obj)
      ensures L(d.target) == L(e.target)
    {
      OutcomeTargets(h, P, h', d, e);
    }
  }

  lemma OutcomeTargets(h: Heap, P: set<Pair>, h': Heap, d: Edge, e: Edge)
    requires Step(h, P, {}, h', true) && d in Edges(h) && e in Edges(h) && d.field == e.field
    requires ClassOf(SameClass(h'))(d.obj) == ClassOf(SameClass(h'))(e.obj)
    ensures ClassOf(SameClass(h'))(d.target) == ClassOf(SameClass(h'))(e.target)
  {
    StepHasEdge(h, P, {}, h', d);
    StepHasEdge(h, P, {}, h', e);
    hide Step, ClassOf, SameClass;
    SameClasses(h', d.obj, e.obj);
    EdgesMeet(h', d, e);
    SameClasses(h', d.target, e.target);
  }

  lemma ForcedBySame(h: Heap, P: set<Pair>, h': Heap, L: Classes, x: Reference, y: Reference)
    requires Step(h, P, {}, h', true) && Obeys(L, h, P, {}) && Same(h', x, y)
    ensures L(x) == L(y)
  {
    assert L(Root(h'.parents, x)) == L(x) && L(Root(h'.parents, y)) == L(y);
  }

  lemma TargetsMeet(h: Heap, a: Reference, b: Reference, work: map<Reference, Reference>, h': Heap, k: Field)
    requires Mergeable(h, a, b) && Step(Linked(h, a, b), WorkPairs(work), {}, h', true)
    requires k in h.partitions[a].fieldRefs && k in h.partitions[b].fieldRefs
    requires forall e <- Edges(h) :: HasEdge(h', e)
    ensures Same(h', h.partitions[a].fieldRefs[k], h.partitions[b].fieldRefs[k])
  {
    var d, e := Edge(a, k, h.partitions[a].fieldRefs[k]), Edge(b, k, h.partitions[b].fieldRefs[k]);
    assert d in Edges(h) && e in Edges(h);
    LinkedSame(h, a, b, WorkPairs(work), h');
    EdgesMeet(h', d, e);
  }

  lemma LinkedSame(h: Heap, a: Reference, b: Reference, P: set<Pair>, h': Heap)
    requires Mergeable(h, a, b) && Step(Linked(h, a, b), P, {}, h', true)
    ensures Same(h', a, b)
  {
    hide Step, Linked;
    AbsorbClasses(h, a, b, P, h', true);
    assert (a, b) in {(a, b)};
  }

  lemma MergedEdge(h: Heap, a: Reference, b: Reference, work: map<Reference, Reference>, h': Heap, e: Edge)
    requires Mergeable(h, a, b) && Step(Linked(h, a, b), WorkPairs(work), {}, h', true) && e in Edges(h)
    requires var fa, fb := h.partitions[a].fieldRefs, h.partitions[b].fieldRefs;
      e.field in fa && e.field in fb ==> Same(h', fa[e.field], fb[e.field])
    ensures HasEdge(h', e)
  {
    var mid := Linked(h, a, b);
    StoredEdge(h, e);
    LinkedHeap(h, a, b, e.obj);
    EdgeSurvives(mid, WorkPairs(work), {}, h', true, Edge(e.obj, e.field, Fields(mid, e.obj)[e.field]));
  }
}
