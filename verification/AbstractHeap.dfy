/** The abstract heap as a value, and what a sequence of unification requests must make of it.
    The central relation is Step: the heap after honouring a set of equations and field
    edges, stated without reference to how the heap gets there. */
module AbstractHeap {
  import opened References
  import opened UnionFind

  datatype PartitionInfo = PartitionInfo(numMembers: nat, fieldRefs: FieldMap)

  type PartitionInfoMap = map<Reference, PartitionInfo>

  datatype Heap = Heap(parents: ParentMap, partitions: PartitionInfoMap)

  const EMPTY_HEAP := Heap(map[], map[])

  /** A field edge obj.field = target. */
  datatype Edge = Edge(obj: Reference, field: Field, target: Reference)

  type Pair = (Reference, Reference)

  // ---- well-formed heaps ----

  /** Partition entries are exactly the roots of the forest; the stored sizes stay 1; and climbing
      never decreases the source position. */
  ghost predicate WellFormed(h: Heap) {
    && IsForest(h.parents)
    && (forall r :: r in h.partitions <==> r in h.parents && h.parents[r] == r)
    && (forall r <- h.partitions :: h.partitions[r].numMembers == 1)
    && PositionsRise(h.parents)
  }

  ghost predicate Same(h: Heap, a: Reference, b: Reference)
    requires WellFormed(h)
  {
    Root(h.parents, a) == Root(h.parents, b)
  }

  /** The field map of the class of r; a reference that was never inserted has no fields. */
  ghost function Fields(h: Heap, r: Reference): FieldMap
    requires WellFormed(h)
  {
    var root := Root(h.parents, r);
    if root in h.partitions then h.partitions[root].fieldRefs else map[]
  }

  /** Every stored field entry, with the representative that owns it. */
  ghost function Edges(h: Heap): set<Edge> {
    set r, f | r in h.partitions && f in h.partitions[r].fieldRefs :: Edge(r, f, h.partitions[r].fieldRefs[f])
  }

  ghost function Targets(h: Heap): set<Reference> {
    set e | e in Edges(h) :: e.target
  }

  /** Every reference the heap mentions. */
  ghost function Universe(h: Heap): set<Reference> {
    h.parents.Keys + Targets(h)
  }

  ghost function Mentioned(P: set<Pair>, N: set<Edge>): set<Reference> {
    (set p | p in P :: p.0) + (set p | p in P :: p.1) + (set e | e in N :: e.obj) + (set e | e in N :: e.target)
  }

  // ---- equivalences ----

  /** An equivalence is given by the class it assigns to each reference. */
  type Classes = Reference -> iset<Reference>

  ghost predicate Respects(L: Classes, p: ParentMap)
    requires IsForest(p)
  {
    forall r {:trigger Root(p, r)} :: L(Root(p, r)) == L(r)
  }

  ghost predicate Identifies(L: Classes, P: set<Pair>) {
    forall p <- P :: L(p.0) == L(p.1)
  }

  /** Same class, same field, so same target class. */
  ghost predicate CongruentOn(L: Classes, S: set<Edge>) {
    forall d, e | d in S && e in S && d.field == e.field && L(d.obj) == L(e.obj) :: L(d.target) == L(e.target)
  }

  /** Different fields of one class lead to different classes. */
  ghost predicate SeparatedOn(L: Classes, S: set<Edge>) {
    forall d, e | d in S && e in S && d.field != e.field && L(d.obj) == L(e.obj) :: L(d.target) != L(e.target)
  }

  ghost predicate JustifiedBy(L: Classes, d: Edge, S: set<Edge>) {
    exists e <- S :: e.field == d.field && L(e.obj) == L(d.obj) && L(e.target) == L(d.target)
  }

  /** Every edge of S is an edge of T up to L. */
  ghost predicate Justified(L: Classes, S: set<Edge>, T: set<Edge>) {
    forall d <- S :: JustifiedBy(L, d, T)
  }

  /** L could be the partition of a heap that starts as h and is asked for P and N. */
  ghost predicate Obeys(L: Classes, h: Heap, P: set<Pair>, N: set<Edge>)
    requires WellFormed(h)
  {
    Respects(L, h.parents) && Identifies(L, P) && CongruentOn(L, Edges(h) + N)
  }

  ghost predicate Separates(L: Classes, h: Heap, P: set<Pair>, N: set<Edge>)
    requires WellFormed(h)
  {
    Obeys(L, h, P, N) && SeparatedOn(L, Edges(h) + N)
  }

  /** Some possible partition after P and N keeps the targets of different fields of a class apart. */
  ghost predicate Separable(h: Heap, P: set<Pair>, N: set<Edge>) {
    WellFormed(h) && exists L :: Separates(L, h, P, N)
  }

  // ---- the effect of a request ----

  ghost predicate HasField(h: Heap, e: Edge)
    requires WellFormed(h)
  {
    e.field in Fields(h, e.obj)
  }

  ghost predicate HasEdge(h: Heap, e: Edge)
    requires WellFormed(h)
  {
    HasField(h, e) && Same(h, Fields(h, e.obj)[e.field], e.target)
  }

  /** h' is an outcome of asking heap h to honour the equations P and the field edges N:
      classes only grow, an absorbed representative stays absorbed, the equations hold, no field is lost; if no merge
      dropped a pair, old and new field edges hold; and nothing is unified or stored that P, N and congruence do not
      force. */
  ghost predicate Step(h: Heap, P: set<Pair>, N: set<Edge>, h': Heap, lossless: bool) {
    && WellFormed(h) && WellFormed(h')
    && Universe(h') <= Universe(h) + Mentioned(P, N)
    && h.parents.Keys <= h'.parents.Keys
    && (forall r {:trigger Root(h.parents, r)} :: Root(h'.parents, Root(h.parents, r)) == Root(h'.parents, r))
    && (forall r {:trigger IsHead(h'.parents, r)} :: IsHead(h'.parents, r) ==> IsHead(h.parents, r))
    && (forall p <- P :: Same(h', p.0, p.1))
    && (forall e <- Edges(h) + N :: HasField(h', e))
    && (lossless ==> forall e <- Edges(h) + N :: HasEdge(h', e))
    && (forall L | Obeys(L, h, P, N) :: Respects(L, h'.parents) && Justified(L, Edges(h'), Edges(h) + N))
  }

  // ---- steps compose ----

  lemma EdgeOf(h: Heap, r: Reference, f: Field)
    requires WellFormed(h) && f in Fields(h, r)
    ensures Edge(Root(h.parents, r), f, Fields(h, r)[f]) in Edges(h)
  {
  }

  lemma InEdges(h: Heap, e: Edge)
    ensures e in Edges(h) <==>
      e.obj in h.partitions && e.field in h.partitions[e.obj].fieldRefs
      && h.partitions[e.obj].fieldRefs[e.field] == e.target
  {
    if e.obj in h.partitions && e.field in h.partitions[e.obj].fieldRefs
       && h.partitions[e.obj].fieldRefs[e.field] == e.target
    {
      assert e == Edge(e.obj, e.field, h.partitions[e.obj].fieldRefs[e.field]);
    }
  }

  /** Fields belong to classes. */
  lemma FieldsOfRoot(h: Heap, r: Reference)
    requires WellFormed(h)
    ensures Fields(h, Root(h.parents, r)) == Fields(h, r)
  {
  }

  lemma StoredEdge(h: Heap, e: Edge)
    requires WellFormed(h) && e in Edges(h)
    ensures Root(h.parents, e.obj) == e.obj && e.obj in h.parents && HasEdge(h, e)
  {
  }

  /** A class has one target for a field. */
  lemma EdgesMeet(h: Heap, d: Edge, e: Edge)
    requires WellFormed(h) && HasEdge(h, d) && HasEdge(h, e) && d.field == e.field && Same(h, d.obj, e.obj)
    ensures Same(h, d.target, e.target)
  {
    FieldsOfRoot(h, d.obj);
    FieldsOfRoot(h, e.obj);
  }

  lemma Justifier(L: Classes, d: Edge, S: set<Edge>, T: set<Edge>) returns (e: Edge)
    requires Justified(L, S, T) && d in S
    ensures e in T && e.field == d.field && L(e.obj) == L(d.obj) && L(e.target) == L(d.target)
  {
    assert JustifiedBy(L, d, T);
    e :| e in T && e.field == d.field && L(e.obj) == L(d.obj) && L(e.target) == L(d.target);
  }

  /** What a step says of one possible partition, and of one edge. */
  lemma StepIsForced(h: Heap, P: set<Pair>, N: set<Edge>, h': Heap, lossless: bool, L: Classes)
    requires Step(h, P, N, h', lossless) && Obeys(L, h, P, N)
    ensures Respects(L, h'.parents) && Justified(L, Edges(h'), Edges(h) + N)
  {
  }

  lemma StepHasEdge(h: Heap, P: set<Pair>, N: set<Edge>, h': Heap, e: Edge)
    requires Step(h, P, N, h', true) && e in Edges(h) + N
    ensures HasEdge(h', e)
  {
  }

  lemma JustifiedReflexive(L: Classes, S: set<Edge>, T: set<Edge>)
    requires S <= T
    ensures Justified(L, S, T)
  {
    forall d <- S ensures JustifiedBy(L, d, T) {
    }
  }

  lemma JustifiedTransitive(L: Classes, S: set<Edge>, T: set<Edge>, U: set<Edge>)
    requires Justified(L, S, T) && Justified(L, T, U)
    ensures Justified(L, S, U)
  {
    forall d <- S ensures JustifiedBy(L, d, U) {
      assert JustifiedBy(L, d, T);
      var e :| e in T && e.field == d.field && L(e.obj) == L(d.obj) && L(e.target) == L(d.target);
      assert JustifiedBy(L, e, U);
    }
  }

  lemma JustifiedWeakens(L: Classes, S: set<Edge>, T: set<Edge>, T': set<Edge>)
    requires Justified(L, S, T) && T <= T'
    ensures Justified(L, S, T')
  {
    forall d <- S ensures JustifiedBy(L, d, T') {
      assert JustifiedBy(L, d, T);
    }
  }

  /** Justified edges add nothing to congruence. */
  lemma JustifiedIsCongruent(L: Classes, S: set<Edge>, T: set<Edge>)
    requires Justified(L, S, T) && CongruentOn(L, T)
    ensures CongruentOn(L, S)
  {
    forall d, e | d in S && e in S && d.field == e.field && L(d.obj) == L(e.obj)
      ensures L(d.target) == L(e.target)
    {
      assert JustifiedBy(L, d, T) && JustifiedBy(L, e, T);
    }
  }

  lemma JustifiedIsSeparated(L: Classes, S: set<Edge>, T: set<Edge>)
    requires Justified(L, S, T) && SeparatedOn(L, T)
    ensures SeparatedOn(L, S)
  {
    forall d, e | d in S && e in S && d.field != e.field && L(d.obj) == L(e.obj)
      ensures L(d.target) != L(e.target)
    {
      assert JustifiedBy(L, d, T) && JustifiedBy(L, e, T);
    }
  }

  lemma StepReflexive(h: Heap)
    requires WellFormed(h)
    ensures Step(h, {}, {}, h, true)
  {
    forall e <- Edges(h) ensures HasEdge(h, e) {
      StoredEdge(h, e);
    }
    forall L | Obeys(L, h, {}, {}) ensures Justified(L, Edges(h), Edges(h) + {}) {
      JustifiedReflexive(L, Edges(h), Edges(h) + {});
    }
  }

  /** A field edge of a heap survives a step: the class keeps the field, and if the step is
      lossless the target class too. */
  lemma EdgeSurvives(h: Heap, P: set<Pair>, N: set<Edge>, h': Heap, lossless: bool, e: Edge)
    requires Step(h, P, N, h', lossless) && HasField(h, e)
    ensures HasField(h', e)
    ensures lossless && HasEdge(h, e) ==> HasEdge(h', e)
  {
    var stored := Edge(Root(h.parents, e.obj), e.field, Fields(h, e.obj)[e.field]);
    EdgeOf(h, e.obj, e.field);
    assert stored in Edges(h) + N;
    assert HasField(h', stored);
    FieldsOfRoot(h', e.obj);
    FieldsOfRoot(h', stored.obj);
    assert Fields(h', stored.obj) == Fields(h', e.obj);
    if lossless && HasEdge(h, e) {
      assert HasEdge(h', stored);
      assert Root(h'.parents, Root(h.parents, stored.target)) == Root(h'.parents, stored.target);
      assert Root(h'.parents, Root(h.parents, e.target)) == Root(h'.parents, e.target);
    }
  }

  lemma ObeysAfter(L: Classes, h: Heap, P: set<Pair>, N: set<Edge>, h1: Heap, lossless: bool, Q: set<Pair>,
                   M: set<Edge>)
    requires Step(h, P, N, h1, lossless) && Obeys(L, h, P + Q, N + M)
    ensures Obeys(L, h, P, N) && Obeys(L, h1, Q, M)
    ensures Justified(L, Edges(h1) + M, Edges(h) + (N + M))
  {
    assert Edges(h) + N <= Edges(h) + (N + M);
    assert Obeys(L, h, P, N);
    JustifiedWeakens(L, Edges(h1), Edges(h) + N, Edges(h) + (N + M));
    JustifiedReflexive(L, M, Edges(h) + (N + M));
    JustifiedIsCongruent(L, Edges(h1) + M, Edges(h) + (N + M));
  }

  /** What is left to request after the first part of it keeps its separating partition. */
  lemma SeparableAfter(h: Heap, P: set<Pair>, N: set<Edge>, h1: Heap, lossless: bool, Q: set<Pair>, M: set<Edge>)
    requires Step(h, P, N, h1, lossless) && Separable(h, P + Q, N + M)
    ensures Separable(h1, Q, M)
  {
    var L :| Separates(L, h, P + Q, N + M);
    ObeysAfter(L, h, P, N, h1, lossless, Q, M);
    JustifiedIsSeparated(L, Edges(h1) + M, Edges(h) + (N + M));
    assert Separates(L, h1, Q, M);
  }

  lemma SeparableFewer(h: Heap, P: set<Pair>, N: set<Edge>, P': set<Pair>, N': set<Edge>)
    requires Separable(h, P, N) && P' <= P && N' <= N
    ensures Separable(h, P', N')
  {
    var L :| Separates(L, h, P, N);
    assert Edges(h) + N' <= Edges(h) + N;
    assert Separates(L, h, P', N');
  }

  /** One more part of a larger request. */
  lemma SeparableNext(h: Heap, P: set<Pair>, N: set<Edge>, h1: Heap, lossless: bool, Q: set<Pair>, M: set<Edge>,
                      all: set<Pair>, allEdges: set<Edge>)
    requires Step(h, P, N, h1, lossless)
    requires P + Q <= all && N + M <= allEdges
    ensures Separable(h, all, allEdges) ==> Separable(h1, Q, M)
  {
    hide Step, Separable;
    if Separable(h, all, allEdges) {
      SeparableFewer(h, all, allEdges, P + Q, N + M);
      SeparableAfter(h, P, N, h1, lossless, Q, M);
    }
  }

  /** The classes of a and b have no field in common, or are one. */
  ghost predicate ShareNoField(h: Heap, a: Reference, b: Reference)
    requires WellFormed(h)
  {
    Same(h, a, b) || Fields(h, a).Keys !! Fields(h, b).Keys
  }

  lemma CoarseningsCompose(h: Heap, h1: Heap, h2: Heap, r: Reference)
    requires WellFormed(h) && WellFormed(h1) && WellFormed(h2)
    requires forall x {:trigger Root(h.parents, x)} :: Root(h1.parents, Root(h.parents, x)) == Root(h1.parents, x)
    requires forall x {:trigger Root(h1.parents, x)} :: Root(h2.parents, Root(h1.parents, x)) == Root(h2.parents, x)
    ensures Root(h2.parents, Root(h.parents, r)) == Root(h2.parents, r)
  {
    assert Root(h2.parents, Root(h1.parents, Root(h.parents, r))) == Root(h2.parents, Root(h1.parents, r));
  }

  lemma MentionedPair(a: Reference, b: Reference)
    ensures Mentioned({(a, b)}, {}) == {a, b}
  {
    var P := {(a, b)};
    assert (a, b) in P;
    assert (set p | p in P :: p.0) == {a} && (set p | p in P :: p.1) == {b};
  }

  lemma MentionedUnion(P: set<Pair>, N: set<Edge>, Q: set<Pair>, M: set<Edge>)
    ensures Mentioned(P + Q, N + M) == Mentioned(P, N) + Mentioned(Q, M)
  {
  }

  lemma SameSurvives(h: Heap, P: set<Pair>, N: set<Edge>, h': Heap, lossless: bool, a: Reference, b: Reference)
    requires Step(h, P, N, h', lossless) && Same(h, a, b)
    ensures Same(h', a, b)
  {
    assert Root(h'.parents, Root(h.parents, a)) == Root(h'.parents, a);
    assert Root(h'.parents, Root(h.parents, b)) == Root(h'.parents, b);
  }

  /** Composition: the requests of two consecutive steps add up, and the pair is lossless
      when both are. */
  lemma StepTransitive(h: Heap, P: set<Pair>, N: set<Edge>, h1: Heap, lossless1: bool,
                       Q: set<Pair>, M: set<Edge>, h2: Heap, lossless2: bool)
    requires Step(h, P, N, h1, lossless1) && Step(h1, Q, M, h2, lossless2)
    ensures Step(h, P + Q, N + M, h2, lossless1 && lossless2)
  {
    MentionedUnion(P, N, Q, M);
    forall r ensures Root(h2.parents, Root(h.parents, r)) == Root(h2.parents, r) {
      CoarseningsCompose(h, h1, h2, r);
    }
    forall p <- P + Q ensures Same(h2, p.0, p.1) {
      if p in P {
        SameSurvives(h1, Q, M, h2, lossless2, p.0, p.1);
      }
    }
    EdgesSurvive(h, N, h1, lossless1, P, Q, M, h2, lossless2);
    forall L | Obeys(L, h, P + Q, N + M)
      ensures Respects(L, h2.parents) && Justified(L, Edges(h2), Edges(h) + (N + M))
    {
      ObeysAfter(L, h, P, N, h1, lossless1, Q, M);
      JustifiedTransitive(L, Edges(h2), Edges(h1) + M, Edges(h) + (N + M));
    }
  }

  lemma EdgesSurvive(h: Heap, N: set<Edge>, h1: Heap, lossless1: bool, P: set<Pair>,
                     Q: set<Pair>, M: set<Edge>, h2: Heap, lossless2: bool)
    requires Step(h, P, N, h1, lossless1) && Step(h1, Q, M, h2, lossless2)
    ensures forall e <- Edges(h) + (N + M) :: HasField(h2, e)
    ensures lossless1 && lossless2 ==> forall e <- Edges(h) + (N + M) :: HasEdge(h2, e)
  {
    forall e <- Edges(h) + (N + M)
      ensures HasField(h2, e) && (lossless1 && lossless2 ==> HasEdge(h2, e))
    {
      if e in M {
        assert e in Edges(h1) + M;
      } else {
        assert e in Edges(h) + N;
        EdgeSurvives(h1, Q, M, h2, lossless2, e);
      }
    }
  }

  lemma StepWeaken(h: Heap, P: set<Pair>, N: set<Edge>, h': Heap, lossless: bool, lossless': bool)
    requires Step(h, P, N, h', lossless) && (lossless' ==> lossless)
    ensures Step(h, P, N, h', lossless')
  {
  }

  /** Composition when the later step knows of the earlier one's losses. */
  lemma StepThen(h: Heap, P: set<Pair>, N: set<Edge>, h1: Heap, kept: bool, Q: set<Pair>, M: set<Edge>, h2: Heap,
                 lossless: bool)
    requires Step(h, P, N, h1, kept) && Step(h1, Q, M, h2, lossless) && (lossless ==> kept)
    ensures Step(h, P + Q, N + M, h2, lossless)
  {
    StepTransitive(h, P, N, h1, kept, Q, M, h2, lossless);
  }

  lemma EquationsThen(h: Heap, P: set<Pair>, h1: Heap, kept: bool, Q: set<Pair>, h2: Heap, lossless: bool)
    requires Step(h, P, {}, h1, kept) && Step(h1, Q, {}, h2, lossless) && (lossless ==> kept)
    ensures Step(h, P + Q, {}, h2, lossless)
  {
    StepThen(h, P, {}, h1, kept, Q, {}, h2, lossless);
    var none: set<Edge> := {};
    assert none + none == none;
  }

  lemma EdgesThen(h: Heap, N: set<Edge>, h1: Heap, kept: bool, M: set<Edge>, h2: Heap, lossless: bool)
    requires Step(h, {}, N, h1, kept) && Step(h1, {}, M, h2, lossless) && (lossless ==> kept)
    ensures Step(h, {}, N + M, h2, lossless)
  {
    StepThen(h, {}, N, h1, kept, {}, M, h2, lossless);
    var none: set<Pair> := {};
    assert none + none == none;
  }

  lemma EmptyStep(h: Heap, lossless: bool)
    requires WellFormed(h)
    ensures Step(h, {}, {}, h, lossless)
  {
    StepReflexive(h);
    StepWeaken(h, {}, {}, h, true, lossless);
  }

  // ---- elementary steps ----

  /** Restating a request by one that forces the same and, in the outcome, holds as well. */
  lemma StepReframe(h: Heap, P: set<Pair>, N: set<Edge>, h': Heap, lossless: bool, P': set<Pair>, N': set<Edge>)
    requires Step(h, P, N, h', lossless)
    requires Mentioned(P, N) <= Universe(h) + Mentioned(P', N')
    requires forall p <- P' :: Same(h', p.0, p.1)
    requires forall e <- N' :: HasField(h', e) && (lossless ==> HasEdge(h', e))
    requires forall L | Obeys(L, h, P', N') :: Identifies(L, P) && Justified(L, N, Edges(h) + N')
    ensures Step(h, P', N', h', lossless)
  {
    forall e <- Edges(h) + N' ensures HasField(h', e) && (lossless ==> HasEdge(h', e)) {
      if e in Edges(h) {
        assert e in Edges(h) + N;
      }
    }
    forall L | Obeys(L, h, P', N')
      ensures Respects(L, h'.parents) && Justified(L, Edges(h'), Edges(h) + N')
    {
      JustifiedReflexive(L, Edges(h), Edges(h) + N');
      assert Justified(L, Edges(h) + N, Edges(h) + N');
      JustifiedIsCongruent(L, Edges(h) + N, Edges(h) + N');
      assert Obeys(L, h, P, N);
      JustifiedTransitive(L, Edges(h'), Edges(h) + N, Edges(h) + N');
    }
  }

  /** A request that forces no more than another one is as separable. */
  lemma SeparableReframe(h: Heap, P: set<Pair>, N: set<Edge>, P': set<Pair>, N': set<Edge>)
    requires Separable(h, P', N')
    requires forall L | Obeys(L, h, P', N') :: Identifies(L, P) && Justified(L, N, Edges(h) + N')
    ensures Separable(h, P, N)
  {
    var L :| Separates(L, h, P', N');
    JustifiedReflexive(L, Edges(h), Edges(h) + N');
    assert Justified(L, Edges(h) + N, Edges(h) + N');
    JustifiedIsCongruent(L, Edges(h) + N, Edges(h) + N');
    JustifiedIsSeparated(L, Edges(h) + N, Edges(h) + N');
    assert Separates(L, h, P, N);
  }

  lemma StepSymmetric(h: Heap, a: Reference, b: Reference, h': Heap, lossless: bool)
    requires Step(h, {(a, b)}, {}, h', lossless)
    ensures Step(h, {(b, a)}, {}, h', lossless)
  {
    assert (a, b) in {(a, b)} && (b, a) in {(b, a)};
    MentionedPair(a, b);
    MentionedPair(b, a);
    StepReframe(h, {(a, b)}, {}, h', lossless, {(b, a)}, {});
  }

  /** Inserting or looking up: no root and no field map changes. */
  lemma QuietStep(h: Heap, r: Reference, h': Heap)
    requires WellFormed(h) && WellFormed(h')
    requires h'.parents.Keys == h.parents.Keys + {r}
    requires forall x :: Root(h'.parents, x) == Root(h.parents, x)
    requires forall x :: Fields(h', x) == Fields(h, x)
    ensures Step(h, {(r, r)}, {}, h', true)
  {
    forall x | IsHead(h'.parents, x) ensures IsHead(h.parents, x) {
      assert Root(h'.parents, x) == Root(h.parents, x);
    }
    forall e ensures e in Edges(h') <==> e in Edges(h) {
      assert Root(h'.parents, e.obj) == Root(h.parents, e.obj);
      assert Fields(h', e.obj) == Fields(h, e.obj);
    }
    assert Edges(h') == Edges(h);
    assert (r, r) in {(r, r)};
    forall e <- Edges(h) + {} ensures HasEdge(h', e) {
      StoredEdge(h, e);
    }
    forall L | Obeys(L, h, {(r, r)}, {}) ensures Justified(L, Edges(h'), Edges(h) + {}) {
      JustifiedReflexive(L, Edges(h'), Edges(h) + {});
    }
  }

  /** The heap with a field added to the class of representative r. */
  ghost function WithField(h: Heap, r: Reference, f: Field, t: Reference): Heap
    requires r in h.partitions
  {
    var info := h.partitions[r];
    h.(partitions := h.partitions[r := info.(fieldRefs := info.fieldRefs[f := t])])
  }

  lemma WithFieldFields(h: Heap, r: Reference, f: Field, t: Reference, x: Reference)
    requires WellFormed(h) && r in h.partitions
    ensures WellFormed(WithField(h, r, f, t))
    ensures Fields(WithField(h, r, f, t), x) ==
            if Root(h.parents, x) == r then Fields(h, x)[f := t] else Fields(h, x)
  {
  }

  lemma WithFieldEdges(h: Heap, r: Reference, f: Field, t: Reference)
    requires WellFormed(h) && r in h.partitions && f !in h.partitions[r].fieldRefs
    ensures Edges(WithField(h, r, f, t)) == Edges(h) + {Edge(r, f, t)}
  {
    var h' := WithField(h, r, f, t);
    forall e ensures e in Edges(h') <==> e in Edges(h) + {Edge(r, f, t)} {
      InEdges(h, e);
      InEdges(h', e);
    }
  }

  /** Storing obj.f = t for a class without f, possibly under another name of t's class. */
  lemma WithFieldStep(h: Heap, obj: Reference, f: Field, t: Reference, stored: Reference)
    requires WellFormed(h) && obj in h.parents && f !in Fields(h, obj)
    requires Same(h, stored, t) && (stored == t || stored in h.parents)
    requires Root(h.parents, obj) in h.partitions
    ensures Step(h, {}, {Edge(obj, f, t)}, WithField(h, Root(h.parents, obj), f, stored), true)
  {
    var r := Root(h.parents, obj);
    var h', e0 := WithField(h, r, f, stored), Edge(obj, f, t);
    WithFieldFields(h, r, f, stored, obj);
    WithFieldEdges(h, r, f, stored);
    forall e <- Edges(h) + {e0} ensures HasEdge(h', e) {
      WithFieldFields(h, r, f, stored, e.obj);
      if e in Edges(h) {
        StoredEdge(h, e);
      }
    }
    forall L | Obeys(L, h, {}, {e0}) ensures Justified(L, Edges(h'), Edges(h) + {e0}) {
      forall d <- Edges(h') ensures JustifiedBy(L, d, Edges(h) + {e0}) {
        if d == Edge(r, f, stored) {
          assert L(Root(h.parents, obj)) == L(obj);
          assert L(Root(h.parents, stored)) == L(stored) && L(Root(h.parents, t)) == L(t);
          assert e0 in Edges(h) + {e0};
        } else {
          assert d in Edges(h) + {e0};
        }
      }
    }
  }

  /** When the class already has f, unifying its f-target with t's class honours obj.f = t. */
  lemma FieldUnifyStep(h: Heap, obj: Reference, f: Field, t: Reference, named: Reference, h': Heap, lossless: bool)
    requires WellFormed(h) && f in Fields(h, obj)
    requires Same(h, named, t) && (named == t || named in h.parents)
    requires Step(h, {(Fields(h, obj)[f], named)}, {}, h', lossless)
    ensures Step(h, {}, {Edge(obj, f, t)}, h', lossless)
  {
    var v, e0 := Fields(h, obj)[f], Edge(obj, f, t);
    EdgeOf(h, obj, f);
    EdgeSurvives(h, {(v, named)}, {}, h', lossless, Edge(obj, f, v));
    assert (v, named) in {(v, named)};
    SameSurvives(h, {(v, named)}, {}, h', lossless, named, t);
    FieldUnifyMentions(h, obj, f, t, named);
    forall L | Obeys(L, h, {}, {e0})
      ensures Identifies(L, {(v, named)}) && Justified(L, {}, Edges(h) + {e0})
    {
      FieldUnifyForced(h, obj, f, t, named, L);
    }
    StepReframe(h, {(v, named)}, {}, h', lossless, {}, {e0});
  }

  lemma FieldUnifyMentions(h: Heap, obj: Reference, f: Field, t: Reference, named: Reference)
    requires WellFormed(h) && f in Fields(h, obj)
    requires named == t || named in h.parents
    ensures Mentioned({(Fields(h, obj)[f], named)}, {}) <= Universe(h) + Mentioned({}, {Edge(obj, f, t)})
  {
    EdgeOf(h, obj, f);
    assert Edge(obj, f, t) in {Edge(obj, f, t)};
  }

  lemma FieldUnifyForced(h: Heap, obj: Reference, f: Field, t: Reference, named: Reference, L: Classes)
    requires WellFormed(h) && f in Fields(h, obj) && Same(h, named, t)
    requires Obeys(L, h, {}, {Edge(obj, f, t)})
    ensures L(Fields(h, obj)[f]) == L(named)
  {
    EdgeOf(h, obj, f);
    var stored, e0 := Edge(Root(h.parents, obj), f, Fields(h, obj)[f]), Edge(obj, f, t);
    assert stored in Edges(h) + {e0} && e0 in Edges(h) + {e0};
    assert L(Root(h.parents, obj)) == L(obj);
    assert L(Root(h.parents, named)) == L(named) && L(Root(h.parents, t)) == L(t);
  }

  // ---- merging two classes ----

  /** Shared fields whose absorbed targets are one reference have kept targets of one class: where fields compete for
      an entry of the work list, any of them will do. */
  ghost predicate Functional(p: ParentMap, absorbed: FieldMap, kept: FieldMap)
    requires IsForest(p)
  {
    forall j, k | j in absorbed && j in kept && k in absorbed && k in kept && absorbed[j] == absorbed[k] ::
      Root(p, kept[j]) == Root(p, kept[k])
  }

  /** The work list holds, for every target of a shared field in the absorbed map, the target of such a
      field in the kept map. */
  ghost predicate IsWorkList(work: map<Reference, Reference>, absorbed: FieldMap, kept: FieldMap) {
    && (forall k | k in absorbed && k in kept :: absorbed[k] in work)
    && (forall v <- work :: exists k <- absorbed :: k in kept && absorbed[k] == v && kept[k] == work[v])
  }

  ghost function WorkPairs(work: map<Reference, Reference>): set<Pair> {
    set v | v in work :: (v, work[v])
  }

  /** Representative a absorbed into representative b: parent link, entry of a deleted, a's fields copied
      to b unless b has them. The stored size of b is not updated. */
  ghost function Linked(h: Heap, a: Reference, b: Reference): Heap
    requires a in h.partitions && b in h.partitions
  {
    var merged := h.partitions[a].fieldRefs + h.partitions[b].fieldRefs;
    Heap(h.parents[a := b], (h.partitions - {a})[b := h.partitions[b].(fieldRefs := merged)])
  }

  /** a and b are distinct representatives, a the one to absorb. */
  ghost predicate Mergeable(h: Heap, a: Reference, b: Reference) {
    WellFormed(h) && a in h.partitions && b in h.partitions && a != b && a.Pos() <= b.Pos()
  }

  lemma LinkedHeap(h: Heap, a: Reference, b: Reference, x: Reference)
    requires Mergeable(h, a, b)
    ensures WellFormed(Linked(h, a, b))
    ensures Root(Linked(h, a, b).parents, x) == if Root(h.parents, x) == a then b else Root(h.parents, x)
    ensures Fields(Linked(h, a, b), x) ==
            if Root(h.parents, x) in {a, b} then h.partitions[a].fieldRefs + h.partitions[b].fieldRefs else Fields(h, x)
  {
    LinkMergesRoots(h.parents, a, b);
  }

  /** Linking followed by any outcome of the work list honours the equation a = b; it is lossless
      if the rest is and the work list has room for every shared field. */
  lemma AbsorbStep(h: Heap, a: Reference, b: Reference, work: map<Reference, Reference>, h': Heap, lossless: bool)
    requires Mergeable(h, a, b)
    requires IsWorkList(work, h.partitions[a].fieldRefs, h.partitions[b].fieldRefs)
    requires Step(Linked(h, a, b), WorkPairs(work), {}, h', lossless)
    ensures Step(h, {(a, b)}, {}, h',
                 lossless && Functional(h.parents, h.partitions[a].fieldRefs, h.partitions[b].fieldRefs))
  {
    AbsorbClasses(h, a, b, WorkPairs(work), h', lossless);
    AbsorbUniverse(h, a, b, work, h', lossless);
    AbsorbEdges(h, a, b, work, h', lossless);
    forall L | Obeys(L, h, {(a, b)}, {})
      ensures Respects(L, h'.parents) && Justified(L, Edges(h'), Edges(h) + {})
    {
      AbsorbMinimal(h, a, b, work, h', lossless, L);
    }
  }

  lemma AbsorbMinimal(h: Heap, a: Reference, b: Reference, work: map<Reference, Reference>, h': Heap, lossless: bool,
                      L: Classes)
    requires Mergeable(h, a, b)
    requires IsWorkList(work, h.partitions[a].fieldRefs, h.partitions[b].fieldRefs)
    requires Step(Linked(h, a, b), WorkPairs(work), {}, h', lossless)
    requires Obeys(L, h, {(a, b)}, {})
    ensures Respects(L, h'.parents) && Justified(L, Edges(h'), Edges(h) + {})
  {
    AbsorbObeys(h, a, b, work, L);
    JustifiedTransitive(L, Edges(h'), Edges(Linked(h, a, b)) + {}, Edges(h) + {});
  }

  lemma AbsorbEdges(h: Heap, a: Reference, b: Reference, work: map<Reference, Reference>, h': Heap, lossless: bool)
    requires Mergeable(h, a, b)
    requires IsWorkList(work, h.partitions[a].fieldRefs, h.partitions[b].fieldRefs)
    requires Step(Linked(h, a, b), WorkPairs(work), {}, h', lossless)
    ensures forall e <- Edges(h) + {} :: HasField(h', e)
    ensures lossless && Functional(h.parents, h.partitions[a].fieldRefs, h.partitions[b].fieldRefs) ==>
      forall e <- Edges(h) + {} :: HasEdge(h', e)
  {
    forall e <- Edges(h) + {}
      ensures HasField(h', e)
      ensures lossless && Functional(h.parents, h.partitions[a].fieldRefs, h.partitions[b].fieldRefs) ==> HasEdge(h', e)
    {
      AbsorbEdge(h, a, b, work, h', lossless, e);
    }
  }

  lemma AbsorbClasses(h: Heap, a: Reference, b: Reference, P: set<Pair>, h': Heap, lossless: bool)
    requires Mergeable(h, a, b)
    requires Step(Linked(h, a, b), P, {}, h', lossless)
    ensures h.parents.Keys <= h'.parents.Keys
    ensures forall x {:trigger Root(h.parents, x)} :: Root(h'.parents, Root(h.parents, x)) == Root(h'.parents, x)
    ensures forall x {:trigger IsHead(h'.parents, x)} :: IsHead(h'.parents, x) ==> IsHead(h.parents, x)
    ensures forall p <- {(a, b)} :: Same(h', p.0, p.1)
  {
    var mid := Linked(h, a, b);
    LinkedHeap(h, a, b, a);
    assert Root(h'.parents, Root(mid.parents, a)) == Root(h'.parents, a);
    forall x ensures Root(h'.parents, Root(h.parents, x)) == Root(h'.parents, x) {
      LinkedHeap(h, a, b, x);
      assert Root(h'.parents, Root(mid.parents, x)) == Root(h'.parents, x);
    }
    forall x | IsHead(h'.parents, x) ensures IsHead(h.parents, x) {
      assert IsHead(mid.parents, x);
    }
  }

  lemma AbsorbUniverse(h: Heap, a: Reference, b: Reference, work: map<Reference, Reference>, h': Heap, lossless: bool)
    requires Mergeable(h, a, b)
    requires IsWorkList(work, h.partitions[a].fieldRefs, h.partitions[b].fieldRefs)
    requires Step(Linked(h, a, b), WorkPairs(work), {}, h', lossless)
    ensures Universe(h') <= Universe(h) + Mentioned({(a, b)}, {})
  {
    LinkedUniverse(h, a, b, work);
  }

  lemma LinkedUniverse(h: Heap, a: Reference, b: Reference, work: map<Reference, Reference>)
    requires Mergeable(h, a, b)
    requires IsWorkList(work, h.partitions[a].fieldRefs, h.partitions[b].fieldRefs)
    ensures Universe(Linked(h, a, b)) + Mentioned(WorkPairs(work), {}) <= Universe(h)
  {
    var mid := Linked(h, a, b);
    forall t <- Targets(mid) ensures t in Targets(h) {
      var e :| e in Edges(mid) && e.target == t;
      assert e in Edges(h) || Edge(a, e.field, t) in Edges(h);
    }
    forall r <- Mentioned(WorkPairs(work), {}) ensures r in Targets(h) {
      var v :| v in work && (r == v || r == work[v]);
      var k :| k in h.partitions[a].fieldRefs && k in h.partitions[b].fieldRefs
        && h.partitions[a].fieldRefs[k] == v && h.partitions[b].fieldRefs[k] == work[v];
      assert Edge(a, k, v) in Edges(h) && Edge(b, k, work[v]) in Edges(h);
    }
  }

  lemma AbsorbEdge(h: Heap, a: Reference, b: Reference, work: map<Reference, Reference>, h': Heap, lossless: bool,
                   e: Edge)
    requires Mergeable(h, a, b)
    requires IsWorkList(work, h.partitions[a].fieldRefs, h.partitions[b].fieldRefs)
    requires Step(Linked(h, a, b), WorkPairs(work), {}, h', lossless)
    requires e in Edges(h)
    ensures HasField(h', e)
    ensures lossless && Functional(h.parents, h.partitions[a].fieldRefs, h.partitions[b].fieldRefs) ==> HasEdge(h', e)
  {
    var mid := Linked(h, a, b);
    var fa, fb := h.partitions[a].fieldRefs, h.partitions[b].fieldRefs;
    StoredEdge(h, e);
    LinkedHeap(h, a, b, e.obj);
    var e1 := Edge(e.obj, e.field, Fields(mid, e.obj)[e.field]);
    EdgeSurvives(mid, WorkPairs(work), {}, h', lossless, e1);
    if lossless && Functional(h.parents, fa, fb) && e1.target != e.target {
      AbsorbedTarget(h, a, b, work, h', e.field);
    }
  }

  lemma AbsorbedTarget(h: Heap, a: Reference, b: Reference, work: map<Reference, Reference>, h': Heap, k: Field)
    requires Mergeable(h, a, b) && k in h.partitions[a].fieldRefs && k in h.partitions[b].fieldRefs
    requires IsWorkList(work, h.partitions[a].fieldRefs, h.partitions[b].fieldRefs)
    requires Functional(h.parents, h.partitions[a].fieldRefs, h.partitions[b].fieldRefs)
    requires Step(Linked(h, a, b), WorkPairs(work), {}, h', true)
    ensures Same(h', h.partitions[a].fieldRefs[k], h.partitions[b].fieldRefs[k])
  {
    var fa, fb := h.partitions[a].fieldRefs, h.partitions[b].fieldRefs;
    var v := fa[k];
    WorkListCovers(h.parents, work, fa, fb, k);
    assert (v, work[v]) in WorkPairs(work);
    assert Same(h', v, work[v]);
    LinkingKeepsSame(h, a, b, WorkPairs(work), h', true, work[v], fb[k]);
  }

  lemma WorkListCovers(p: ParentMap, work: map<Reference, Reference>, absorbed: FieldMap, kept: FieldMap, k: Field)
    requires IsForest(p) && IsWorkList(work, absorbed, kept) && Functional(p, absorbed, kept)
    requires k in absorbed && k in kept
    ensures absorbed[k] in work && Root(p, work[absorbed[k]]) == Root(p, kept[k])
  {
  }

  lemma LinkingKeepsSame(h: Heap, a: Reference, b: Reference, P: set<Pair>, h': Heap, lossless: bool, x: Reference,
                         y: Reference)
    requires Mergeable(h, a, b) && Step(Linked(h, a, b), P, {}, h', lossless) && Same(h, x, y)
    ensures Same(h', x, y)
  {
    LinkedHeap(h, a, b, x);
    LinkedHeap(h, a, b, y);
    SameSurvives(Linked(h, a, b), P, {}, h', lossless, x, y);
  }

  lemma AbsorbObeys(h: Heap, a: Reference, b: Reference, work: map<Reference, Reference>, L: Classes)
    requires Mergeable(h, a, b)
    requires IsWorkList(work, h.partitions[a].fieldRefs, h.partitions[b].fieldRefs)
    requires WellFormed(Linked(h, a, b))
    requires Obeys(L, h, {(a, b)}, {})
    ensures Obeys(L, Linked(h, a, b), WorkPairs(work), {})
    ensures Justified(L, Edges(Linked(h, a, b)) + {}, Edges(h) + {})
  {
    hide Linked, IsWorkList;
    assert (a, b) in {(a, b)};
    LinkedRespects(h, a, b, L);
    LinkedIsJustified(h, a, b, L);
    JustifiedIsCongruent(L, Edges(Linked(h, a, b)) + {}, Edges(h) + {});
    WorkIsForced(h, a, b, work, L);
  }

  lemma LinkedRespects(h: Heap, a: Reference, b: Reference, L: Classes)
    requires Mergeable(h, a, b) && Respects(L, h.parents) && L(a) == L(b)
    ensures WellFormed(Linked(h, a, b)) && Respects(L, Linked(h, a, b).parents)
  {
    LinkedHeap(h, a, b, a);
    forall x ensures L(Root(Linked(h, a, b).parents, x)) == L(x) {
      LinkedHeap(h, a, b, x);
      assert L(Root(h.parents, x)) == L(x);
    }
  }

  lemma LinkedIsJustified(h: Heap, a: Reference, b: Reference, L: Classes)
    requires Mergeable(h, a, b) && L(a) == L(b)
    ensures Justified(L, Edges(Linked(h, a, b)) + {}, Edges(h) + {})
  {
    forall d <- Edges(Linked(h, a, b)) + {} ensures JustifiedBy(L, d, Edges(h) + {}) {
      var e := if d in Edges(h) then d else Edge(a, d.field, d.target);
      assert e in Edges(h) + {};
    }
  }

  lemma WorkIsForced(h: Heap, a: Reference, b: Reference, work: map<Reference, Reference>, L: Classes)
    requires Mergeable(h, a, b) && L(a) == L(b) && CongruentOn(L, Edges(h) + {})
    requires IsWorkList(work, h.partitions[a].fieldRefs, h.partitions[b].fieldRefs)
    ensures Identifies(L, WorkPairs(work))
  {
    forall p <- WorkPairs(work) ensures L(p.0) == L(p.1) {
      var k :| k in h.partitions[a].fieldRefs && k in h.partitions[b].fieldRefs
        && h.partitions[a].fieldRefs[k] == p.0 && h.partitions[b].fieldRefs[k] == p.1;
      assert Edge(a, k, p.0) in Edges(h) + {} && Edge(b, k, p.1) in Edges(h) + {};
    }
  }

  /** Where a separating partition exists, a merge loses nothing, and neither will those that its work list asks for. */
  lemma AbsorbSeparable(h: Heap, a: Reference, b: Reference, work: map<Reference, Reference>)
    requires Mergeable(h, a, b) && Separable(h, {(a, b)}, {})
    requires IsWorkList(work, h.partitions[a].fieldRefs, h.partitions[b].fieldRefs)
    ensures Functional(h.parents, h.partitions[a].fieldRefs, h.partitions[b].fieldRefs)
    ensures Separable(Linked(h, a, b), WorkPairs(work), {})
  {
    var L :| Separates(L, h, {(a, b)}, {});
    LinkedHeap(h, a, b, a);
    SeparatedIsFunctional(h, a, b, L);
    AbsorbObeys(h, a, b, work, L);
    JustifiedIsSeparated(L, Edges(Linked(h, a, b)) + {}, Edges(h) + {});
    assert Separates(L, Linked(h, a, b), WorkPairs(work), {});
  }

  lemma SeparatedIsFunctional(h: Heap, a: Reference, b: Reference, L: Classes)
    requires Mergeable(h, a, b) && Separates(L, h, {(a, b)}, {})
    ensures Functional(h.parents, h.partitions[a].fieldRefs, h.partitions[b].fieldRefs)
  {
    var fa, fb := h.partitions[a].fieldRefs, h.partitions[b].fieldRefs;
    forall j, k | j in fa && j in fb && k in fa && k in fb && fa[j] == fa[k] ensures j == k {
      assert Edge(a, j, fa[j]) in Edges(h) + {} && Edge(a, k, fa[k]) in Edges(h) + {};
    }
  }

  // ---- entering a reference ----

  /** The heap after a lookup that creates missing entries: the path of a known reference is
      compressed, an unknown one becomes a partition of its own. */
  ghost function Entered(h: Heap, r: Reference): (h': Heap)
    requires WellFormed(h)
    ensures WellFormed(h')
  {
    if r in h.parents then
      CompressKeepsRoots(h.parents, r);
      CompressKeepsPositions(h.parents, r);
      assert forall x | x in h.parents :: IsHead(Compress(h.parents, r), x) <==> IsHead(h.parents, x);
      h.(parents := Compress(h.parents, r))
    else
      InsertKeepsRoots(h.parents, r);
      Heap(h.parents[r := r], h.partitions[r := PartitionInfo(1, map[])])
  }

  lemma EnteredHeap(h: Heap, r: Reference)
    requires WellFormed(h)
    ensures Entered(h, r).parents.Keys == h.parents.Keys + {r}
    ensures forall x :: Root(Entered(h, r).parents, x) == Root(h.parents, x)
    ensures forall x :: Fields(Entered(h, r), x) == Fields(h, x)
  {
    if r in h.parents {
      CompressKeepsRoots(h.parents, r);
    } else {
      InsertKeepsRoots(h.parents, r);
    }
  }

  lemma EnteredStep(h: Heap, r: Reference)
    requires WellFormed(h)
    ensures Step(h, {(r, r)}, {}, Entered(h, r), true)
  {
    EnteredHeap(h, r);
    QuietStep(h, r, Entered(h, r));
  }

  /** The heap after looking up first a, then b. */
  ghost function EnteredBoth(h: Heap, a: Reference, b: Reference): (h': Heap)
    requires WellFormed(h)
    ensures WellFormed(h')
    ensures Root(h.parents, a) in h'.partitions && Root(h.parents, b) in h'.partitions
    ensures Step(h, {(a, a)} + {(b, b)}, {}, h', true)
    ensures Heads(h', {a, b}) == Heads(h, {a, b})
  {
    EnteredHeap(h, a);
    EnteredHeap(Entered(h, a), b);
    EnteredStep(h, a);
    EnteredStep(Entered(h, a), b);
    EquationsThen(h, {(a, a)}, Entered(h, a), true, {(b, b)}, Entered(Entered(h, a), b), true);
    EnteredHeads(h, a, {a, b});
    EnteredHeads(Entered(h, a), b, {a, b});
    Entered(Entered(h, a), b)
  }

  // ---- the termination measure ----

  /** The mentioned references that no other reference has absorbed. */
  ghost function Heads(h: Heap, extra: set<Reference>): set<Reference> {
    set r | r in Universe(h) + extra && IsHead(h.parents, r)
  }

  /** A step whose mentions are accounted for adds no head. */
  lemma StepHeads(h: Heap, P: set<Pair>, N: set<Edge>, h': Heap, lossless: bool, extra: set<Reference>,
                  extra': set<Reference>)
    requires Step(h, P, N, h', lossless)
    requires Mentioned(P, N) + extra' <= Universe(h) + extra
    ensures Heads(h', extra') <= Heads(h, extra)
  {
  }

  lemma EnteredHeads(h: Heap, r: Reference, extra: set<Reference>)
    requires WellFormed(h) && r in extra
    ensures Heads(Entered(h, r), extra) == Heads(h, extra)
  {
    EnteredHeap(h, r);
    var h' := Entered(h, r);
    forall e ensures e in Edges(h') <==> e in Edges(h) {
      InEdges(h, e);
      InEdges(h', e);
    }
    assert Edges(h') == Edges(h);
    forall x ensures IsHead(h'.parents, x) <==> IsHead(h.parents, x) {
      assert Root(h'.parents, x) == Root(h.parents, x);
    }
  }

  // ---- what the two unification methods do ----

  /** Which of two representatives is absorbed, and into which. Stored sizes are equal, so
      the source position decides; the first one gives way on a tie. */
  function Oriented(r1: Reference, r2: Reference): (Reference, Reference) {
    if r1.Pos() > r2.Pos() then (r2, r1) else (r1, r2)
  }

  /** One representative is linked under the other, then the work list is honoured and nothing else. */
  ghost predicate Unified(h: Heap, r1: Reference, r2: Reference, h': Heap, lossless: bool) {
    r1 in h.partitions && r2 in h.partitions &&
    if r1 == r2 then
      h' == h
    else
      var (a, b) := Oriented(r1, r2);
      exists work ::
        && IsWorkList(work, h.partitions[a].fieldRefs, h.partitions[b].fieldRefs)
        && Step(Linked(h, a, b), WorkPairs(work), {}, h', lossless)
        && (work == map[] ==> h' == Linked(h, a, b))
  }
}
