/** What whole runs of the analysis compute: theorems about any heap reached from the empty one. */
module Congruence {
  import opened References
  import opened UnionFind
  import opened AbstractHeap

  type Relation = (Reference, Reference) -> bool

  ghost predicate Equivalence(E: Relation) {
    && (forall a :: E(a, a))
    && (forall a, b | E(a, b) :: E(b, a))
    && (forall a, b, c | E(a, b) && E(b, c) :: E(a, c))
  }

  /** An equivalence that contains the requested pairs and is closed under "same class, same field, so
      same target class". */
  ghost predicate IsCongruence(E: Relation, P: set<Pair>, N: set<Edge>) {
    && Equivalence(E)
    && (forall p <- P :: E(p.0, p.1))
    && (forall d, e | d in N && e in N && d.field == e.field && E(d.obj, e.obj) :: E(d.target, e.target))
  }

  ghost function SameClass(h: Heap): Relation
    requires WellFormed(h)
  {
    (a, b) => WellFormed(h) && Same(h, a, b)
  }

  ghost function ClassOf(E: Relation): Classes {
    x => iset y | E(x, y)
  }

  lemma ClassesDecideEquivalence(E: Relation, a: Reference, b: Reference)
    requires Equivalence(E)
    ensures ClassOf(E)(a) == ClassOf(E)(b) <==> E(a, b)
  {
    assert b in ClassOf(E)(b);
  }

  lemma SameClasses(h: Heap, a: Reference, b: Reference)
    requires WellFormed(h)
    ensures ClassOf(SameClass(h))(a) == ClassOf(SameClass(h))(b) <==> Same(h, a, b)
  {
    ClassesDecideEquivalence(SameClass(h), a, b);
  }

  lemma CongruenceObeys(E: Relation, P: set<Pair>, N: set<Edge>)
    requires IsCongruence(E, P, N)
    ensures WellFormed(EMPTY_HEAP) ==> Obeys(ClassOf(E), EMPTY_HEAP, P, N)
  {
    var L := ClassOf(E);
    forall p <- P ensures L(p.0) == L(p.1) {
      ClassesDecideEquivalence(E, p.0, p.1);
    }
    assert Edges(EMPTY_HEAP) + N == N;
    forall d, e | d in N && e in N && d.field == e.field && L(d.obj) == L(e.obj)
      ensures L(d.target) == L(e.target)
    {
      ClassesDecideEquivalence(E, d.obj, e.obj);
      ClassesDecideEquivalence(E, d.target, e.target);
    }
  }

  /** Upper bound, for every run: references are only unified when the requests and congruence
      force it. */
  lemma OnlyForcedUnifications(P: set<Pair>, N: set<Edge>, h: Heap, lossless: bool, E: Relation, a: Reference,
                               b: Reference)
    requires Step(EMPTY_HEAP, P, N, h, lossless) && IsCongruence(E, P, N)
    requires Same(h, a, b)
    ensures E(a, b)
  {
    CongruenceObeys(E, P, N);
    var L := ClassOf(E);
    assert L(Root(h.parents, a)) == L(a) && L(Root(h.parents, b)) == L(b);
    ClassesDecideEquivalence(E, a, b);
  }

  /** Lower bound: without losses the partition itself is such a congruence. */
  lemma LosslessIsCongruence(P: set<Pair>, N: set<Edge>, h: Heap)
    requires Step(EMPTY_HEAP, P, N, h, true)
    ensures IsCongruence(SameClass(h), P, N)
  {
    var E := SameClass(h);
    forall d, e | d in N && e in N && d.field == e.field && E(d.obj, e.obj)
      ensures E(d.target, e.target)
    {
      assert d in Edges(EMPTY_HEAP) + N && e in Edges(EMPTY_HEAP) + N;
      assert HasEdge(h, d) && HasEdge(h, e);
      FieldsOfRoot(h, d.obj);
      FieldsOfRoot(h, e.obj);
    }
  }

  /** The partition a lossless run computes is the least congruence of its requests. */
  lemma LeastCongruence(P: set<Pair>, N: set<Edge>, h: Heap, a: Reference, b: Reference)
    requires Step(EMPTY_HEAP, P, N, h, true)
    ensures Same(h, a, b) <==> forall E | IsCongruence(E, P, N) :: E(a, b)
  {
    if Same(h, a, b) {
      forall E | IsCongruence(E, P, N) ensures E(a, b) {
        OnlyForcedUnifications(P, N, h, true, E, a, b);
      }
    }
    if forall E | IsCongruence(E, P, N) :: E(a, b) {
      LosslessIsCongruence(P, N, h);
      assert SameClass(h)(a, b);
    }
  }

  // ---- requests whose runs lose nothing ----

  /** Different fields of one class lead to different classes. */
  ghost predicate KeepsApart(E: Relation, N: set<Edge>) {
    forall d, e | d in N && e in N && d.field != e.field && E(d.obj, e.obj) :: !E(d.target, e.target)
  }

  lemma ApartIsSeparated(E: Relation, N: set<Edge>)
    requires Equivalence(E)
    ensures KeepsApart(E, N) <==> SeparatedOn(ClassOf(E), N)
  {
    forall d, e | d in N && e in N && d.field != e.field
      ensures E(d.obj, e.obj) <==> ClassOf(E)(d.obj) == ClassOf(E)(e.obj)
      ensures E(d.target, e.target) <==> ClassOf(E)(d.target) == ClassOf(E)(e.target)
    {
      ClassesDecideEquivalence(E, d.obj, e.obj);
      ClassesDecideEquivalence(E, d.target, e.target);
    }
  }

  /** A congruence that keeps the targets of different fields apart is a separating partition for the empty heap. */
  lemma ApartIsSeparable(E: Relation, P: set<Pair>, N: set<Edge>)
    requires IsCongruence(E, P, N) && KeepsApart(E, N)
    ensures Separable(EMPTY_HEAP, P, N)
  {
    assert Ranked(EMPTY_HEAP.parents, map[]);
    assert WellFormed(EMPTY_HEAP);
    CongruenceObeys(E, P, N);
    ApartIsSeparated(E, N);
    assert Edges(EMPTY_HEAP) + N == N;
    assert Separates(ClassOf(E), EMPTY_HEAP, P, N);
  }

  /** In every state of such a run any two representatives that the congruence relates can be merged without a loss. */
  lemma RelatedMergesAreFunctional(P: set<Pair>, N: set<Edge>, h: Heap, lossless: bool, E: Relation, a: Reference,
                                   b: Reference)
    requires Step(EMPTY_HEAP, P, N, h, lossless) && IsCongruence(E, P, N) && KeepsApart(E, N)
    requires a in h.partitions && b in h.partitions && E(a, b)
    ensures Functional(h.parents, h.partitions[a].fieldRefs, h.partitions[b].fieldRefs)
  {
    var L := ClassOf(E);
    CongruenceObeys(E, P, N);
    ApartIsSeparated(E, N);
    assert Edges(EMPTY_HEAP) + N == N;
    JustifiedIsSeparated(L, Edges(h), N);
    var fa, fb := h.partitions[a].fieldRefs, h.partitions[b].fieldRefs;
    forall j, k | j in fa && j in fb && k in fa && k in fb && fa[j] == fa[k] ensures j == k {
      assert Edge(a, j, fa[j]) in Edges(h) && Edge(a, k, fa[k]) in Edges(h);
    }
  }

  /** A class has a field exactly when a requested edge leaves it by that field, and then points
      to the class of that edge's target. */
  lemma LosslessFields(P: set<Pair>, N: set<Edge>, h: Heap, r: Reference, f: Field)
    requires Step(EMPTY_HEAP, P, N, h, true)
    ensures f in Fields(h, r) <==> exists e <- N :: e.field == f && Same(h, e.obj, r)
    ensures forall e <- N | e.field == f && Same(h, e.obj, r) ::
              f in Fields(h, r) && Same(h, Fields(h, r)[f], e.target)
  {
    forall e <- N | e.field == f && Same(h, e.obj, r)
      ensures f in Fields(h, r) && Same(h, Fields(h, r)[f], e.target)
    {
      assert e in Edges(EMPTY_HEAP) + N;
      assert HasEdge(h, e);
      FieldsOfRoot(h, e.obj);
      FieldsOfRoot(h, r);
    }
    if f in Fields(h, r) {
      var e := FieldHasReason(P, N, h, r, f);
    }
  }

  lemma FieldHasReason(P: set<Pair>, N: set<Edge>, h: Heap, r: Reference, f: Field) returns (e: Edge)
    requires Step(EMPTY_HEAP, P, N, h, true) && f in Fields(h, r)
    ensures e in N && e.field == f && Same(h, e.obj, r)
  {
    EdgeOf(h, r, f);
    var d := Edge(Root(h.parents, r), f, Fields(h, r)[f]);
    var L := ClassOf(SameClass(h));
    LosslessIsCongruence(P, N, h);
    CongruenceObeys(SameClass(h), P, N);
    StepIsForced(EMPTY_HEAP, P, N, h, true, L);
    hide Step, SameClass, ClassOf, Justified, Obeys;
    e := Justifier(L, d, Edges(h), Edges(EMPTY_HEAP) + N);
    SameClasses(h, e.obj, d.obj);
  }

  /** Lossless runs that make the same requests, in whatever order and with whatever map iteration
      order, agree on the classes, on the fields of every class and on where they point. */
  lemma LosslessRunsAgree(P: set<Pair>, N: set<Edge>, h1: Heap, h2: Heap, a: Reference, b: Reference, f: Field)
    requires Step(EMPTY_HEAP, P, N, h1, true) && Step(EMPTY_HEAP, P, N, h2, true)
    ensures Same(h1, a, b) <==> Same(h2, a, b)
    ensures f in Fields(h1, a) <==> f in Fields(h2, a)
    ensures f in Fields(h1, a) ==> (Same(h1, Fields(h1, a)[f], b) <==> Same(h2, Fields(h2, a)[f], b))
  {
    forall x, y ensures Same(h1, x, y) <==> Same(h2, x, y) {
      LeastCongruence(P, N, h1, x, y);
      LeastCongruence(P, N, h2, x, y);
    }
    LosslessFields(P, N, h1, a, f);
    LosslessFields(P, N, h2, a, f);
    if f in Fields(h1, a) {
      var e :| e in N && e.field == f && Same(h1, e.obj, a);
      assert Same(h1, Fields(h1, a)[f], e.target) && Same(h2, Fields(h2, a)[f], e.target);
      assert Same(h1, e.target, b) <==> Same(h2, e.target, b);
    }
  }

  // ---- runs ----

  datatype Request = Request(pairs: set<Pair>, edges: set<Edge>)

  /** States heaps[0], heaps[1], ... in which each step honours the next request. */
  ghost predicate IsRun(heaps: seq<Heap>, requests: seq<Request>, lossless: bool) {
    && |heaps| == |requests| + 1
    && WellFormed(heaps[0])
    && forall i | 0 <= i < |requests| :: Honours(heaps, requests, lossless, i)
  }

  ghost predicate Honours(heaps: seq<Heap>, requests: seq<Request>, lossless: bool, i: nat)
    requires |heaps| == |requests| + 1 && i < |requests|
  {
    Step(heaps[i], requests[i].pairs, requests[i].edges, heaps[i + 1], lossless)
  }

  lemma RunIsWellFormed(heaps: seq<Heap>, requests: seq<Request>, lossless: bool, i: nat)
    requires IsRun(heaps, requests, lossless) && i < |heaps|
    ensures WellFormed(heaps[i])
  {
    assert i > 0 ==> Honours(heaps, requests, lossless, i - 1);
  }

  lemma NoRun(h: Heap)
    requires WellFormed(h)
    ensures IsRun([h], [], true)
  {
  }

  lemma RunExtends(heaps: seq<Heap>, requests: seq<Request>, kept: bool, q: Request, h: Heap, lossless: bool)
    requires IsRun(heaps, requests, kept) && (lossless ==> kept)
    requires Step(heaps[|heaps| - 1], q.pairs, q.edges, h, lossless)
    ensures IsRun(heaps + [h], requests + [q], lossless)
  {
    hide Step;
    var heaps', requests' := heaps + [h], requests + [q];
    forall i | 0 <= i < |requests'| ensures Honours(heaps', requests', lossless, i) {
      if i < |requests| {
        assert Honours(heaps, requests, kept, i);
        StepWeaken(heaps[i], requests[i].pairs, requests[i].edges, heaps[i + 1], kept, lossless);
      }
    }
  }

  ghost function Pairs(requests: seq<Request>): set<Pair> {
    set q, p | q in requests && p in q.pairs :: p
  }

  ghost function FieldEdges(requests: seq<Request>): set<Edge> {
    set q, e | q in requests && e in q.edges :: e
  }

  /** A stretch of a run is one step for all its requests. */
  lemma {:induction false} RunIsStep(heaps: seq<Heap>, requests: seq<Request>, lossless: bool, i: nat, j: nat)
    requires IsRun(heaps, requests, lossless) && i <= j <= |requests|
    ensures Step(heaps[i], Pairs(requests[i..j]), FieldEdges(requests[i..j]), heaps[j], lossless)
    decreases j
  {
    hide Step, WellFormed;
    if i == j {
      RunIsWellFormed(heaps, requests, lossless, i);
      EmptyStretch(heaps[i], lossless);
      assert requests[i..j] == [];
    } else {
      var q := requests[j - 1];
      assert Honours(heaps, requests, lossless, j - 1);
      RunIsStep(heaps, requests, lossless, i, j - 1);
      StepTransitive(heaps[i], Pairs(requests[i..j - 1]), FieldEdges(requests[i..j - 1]), heaps[j - 1], lossless,
                     q.pairs, q.edges, heaps[j], lossless);
      assert requests[i..j] == requests[i..j - 1] + [q];
      RequestsAdd(requests[i..j - 1], q);
    }
  }

  lemma EmptyStretch(h: Heap, lossless: bool)
    requires WellFormed(h)
    ensures Step(h, Pairs([]), FieldEdges([]), h, lossless)
  {
    assert Pairs([]) == {} && FieldEdges([]) == {};
    EmptyStep(h, lossless);
  }

  lemma NoRequests()
    ensures Pairs([]) == {} && FieldEdges([]) == {}
  {
  }

  lemma RequestsAdd(requests: seq<Request>, q: Request)
    ensures Pairs(requests + [q]) == Pairs(requests) + q.pairs
    ensures FieldEdges(requests + [q]) == FieldEdges(requests) + q.edges
  {
  }

  /** Whole lossless runs compute the least congruence of all their requests. */
  lemma RunComputesLeastCongruence(heaps: seq<Heap>, requests: seq<Request>, a: Reference, b: Reference)
    requires IsRun(heaps, requests, true) && heaps[0] == EMPTY_HEAP
    ensures WellFormed(heaps[|requests|])
    ensures Same(heaps[|requests|], a, b) <==>
              forall E | IsCongruence(E, Pairs(requests), FieldEdges(requests)) :: E(a, b)
  {
    hide Step, IsCongruence;
    RunIsStep(heaps, requests, true, 0, |requests|);
    assert requests[0..|requests|] == requests;
    RunIsWellFormed(heaps, requests, true, |requests|);
    LeastCongruence(Pairs(requests), FieldEdges(requests), heaps[|requests|], a, b);
  }

  /** A run of the visitor, which loses nothing where a separating partition exists, computes the least congruence of
      its requests if any of their congruences keeps the targets of different fields of a class apart. */
  lemma ApartRunIsLeastCongruence(heaps: seq<Heap>, requests: seq<Request>, lossless: bool, E: Relation,
                                  a: Reference, b: Reference)
    requires IsRun(heaps, requests, lossless) && heaps[0] == EMPTY_HEAP
    requires Separable(EMPTY_HEAP, Pairs(requests), FieldEdges(requests)) ==> lossless
    requires IsCongruence(E, Pairs(requests), FieldEdges(requests)) && KeepsApart(E, FieldEdges(requests))
    ensures lossless && WellFormed(heaps[|requests|])
    ensures Same(heaps[|requests|], a, b) <==>
              forall E | IsCongruence(E, Pairs(requests), FieldEdges(requests)) :: E(a, b)
  {
    ApartIsSeparable(E, Pairs(requests), FieldEdges(requests));
    RunComputesLeastCongruence(heaps, requests, a, b);
  }

  /** Lossless runs of the same requests in different orders end in the same partition. */
  lemma OrderIsIrrelevant(heaps: seq<Heap>, requests: seq<Request>, heaps': seq<Heap>, requests': seq<Request>,
                          a: Reference, b: Reference)
    requires IsRun(heaps, requests, true) && IsRun(heaps', requests', true)
    requires heaps[0] == heaps'[0] == EMPTY_HEAP
    requires multiset(requests) == multiset(requests')
    ensures WellFormed(heaps[|requests|]) && WellFormed(heaps'[|requests'|])
    ensures Same(heaps[|requests|], a, b) <==> Same(heaps'[|requests'|], a, b)
  {
    hide IsRun, IsCongruence;
    forall q ensures q in requests <==> q in requests' {
      assert q in multiset(requests) <==> q in multiset(requests');
    }
    assert Pairs(requests) == Pairs(requests') && FieldEdges(requests) == FieldEdges(requests');
    RunComputesLeastCongruence(heaps, requests, a, b);
    RunComputesLeastCongruence(heaps', requests', a, b);
  }

  /** Persistence: what holds at some point of a run holds at its end. Classes stay together, class
      fields stay, and unless a merge lost a pair so do the edges requested or stored by then. */
  lemma Persistence(heaps: seq<Heap>, requests: seq<Request>, lossless: bool, i: nat, a: Reference, b: Reference,
                    e: Edge)
    requires IsRun(heaps, requests, lossless) && i < |heaps|
    ensures WellFormed(heaps[i]) && WellFormed(heaps[|heaps| - 1])
    ensures var end := heaps[|heaps| - 1];
      && (Same(heaps[i], a, b) ==> Same(end, a, b))
      && (HasField(heaps[i], e) ==> HasField(end, e))
      && (lossless && HasEdge(heaps[i], e) ==> HasEdge(end, e))
      && (i > 0 && (a, b) in requests[i - 1].pairs ==> Same(end, a, b))
      && (i > 0 && e in requests[i - 1].edges ==> HasField(end, e) && (lossless ==> HasEdge(end, e)))
  {
    hide Step, WellFormed, HasField, HasEdge, Same;
    var n := |requests|;
    RunIsWellFormed(heaps, requests, lossless, i);
    RunIsWellFormed(heaps, requests, lossless, n);
    RunIsStep(heaps, requests, lossless, i, n);
    Survival(heaps[i], Pairs(requests[i..n]), FieldEdges(requests[i..n]), heaps[n], lossless, a, b, e);
    if i > 0 {
      var q := requests[i - 1];
      assert Honours(heaps, requests, lossless, i - 1);
      Honoured(heaps[i - 1], q.pairs, q.edges, heaps[i], lossless, a, b, e);
    }
  }

  lemma Survival(h: Heap, P: set<Pair>, N: set<Edge>, h': Heap, lossless: bool, a: Reference, b: Reference, e: Edge)
    requires Step(h, P, N, h', lossless)
    ensures Same(h, a, b) ==> Same(h', a, b)
    ensures HasField(h, e) ==> HasField(h', e)
    ensures lossless && HasEdge(h, e) ==> HasEdge(h', e)
  {
    if Same(h, a, b) {
      SameSurvives(h, P, N, h', lossless, a, b);
    }
    if HasField(h, e) {
      EdgeSurvives(h, P, N, h', lossless, e);
    }
  }

  lemma Honoured(h: Heap, P: set<Pair>, N: set<Edge>, h': Heap, lossless: bool, a: Reference, b: Reference, e: Edge)
    requires Step(h, P, N, h', lossless)
    ensures (a, b) in P ==> Same(h', a, b)
    ensures e in N ==> HasField(h', e) && (lossless ==> HasEdge(h', e))
  {
    assert e in N ==> e in Edges(h) + N;
  }

  /** In every class the representative has the largest source position. */
  lemma RepresentativeIsLast(P: set<Pair>, N: set<Edge>, h: Heap, lossless: bool, r: Reference)
    requires Step(EMPTY_HEAP, P, N, h, lossless)
    ensures Root(h.parents, r).Pos() >= r.Pos()
    ensures r in h.parents ==> h.parents[r].Pos() >= r.Pos()
  {
    RootIsLater(h.parents, r);
  }
}
