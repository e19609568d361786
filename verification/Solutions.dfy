/** What the traversal of a list of instructions computes, stated without its states: the least solution of the
    constraints that the instructions impose. */
module Solutions {
  import opened References
  import opened UnionFind
  import opened AbstractHeap
  import opened EarState
  import opened Congruence
  import opened CallStrings
  import opened Visitor

  ghost function Constraints(vis: Visitor, instructions: seq<Instruction>): seq<Request>
    reads vis
  {
    seq(|instructions|, i requires 0 <= i < |instructions| reads vis => Constraint(vis, instructions[i]))
  }

  /** A congruence of the constraints that gives the addresses of one class one pointee. */
  ghost predicate IsSolution(E: Relation, constraints: seq<Request>) {
    && IsCongruence(E, Pairs(constraints), FieldEdges(constraints))
    && forall a, b {:trigger ValueAt(a), ValueAt(b)} | E(a, b) :: E(ValueAt(a), ValueAt(b))
  }

  /** A solution in which different fields of one class lead to different classes. */
  ghost predicate IsApart(E: Relation, constraints: seq<Request>) {
    IsSolution(E, constraints) && KeepsApart(E, FieldEdges(constraints))
  }

  /** The run that VisitAll makes of the instructions. */
  ghost predicate IsTraversal(vis: Visitor, instructions: seq<Instruction>, heaps: seq<Heap>, requests: seq<Request>,
                              lossless: bool)
    reads vis
  {
    && IsRun(heaps, requests, lossless) && heaps[0] == EMPTY_HEAP && |requests| == |instructions|
    && forall i | 0 <= i < |instructions| :: RequestOf(vis, instructions[i], heaps[i], requests[i])
  }

  // ---- states follow every solution ----

  /** The classes and fields of h are among those of L, a partition for the edges N. */
  ghost predicate Follows(h: Heap, L: Classes, N: set<Edge>) {
    WellFormed(h) && Respects(L, h.parents) && Justified(L, Edges(h), N)
  }

  /** L has the edges N, and a pointee for every class. */
  ghost predicate Solves(L: Classes, N: set<Edge>) {
    CongruentOn(L, N) && forall a, b {:trigger ValueAt(a), ValueAt(b)} | L(a) == L(b) :: L(ValueAt(a)) == L(ValueAt(b))
  }

  lemma StepFollows(h: Heap, P: set<Pair>, M: set<Edge>, h': Heap, lossless: bool, L: Classes, N: set<Edge>)
    requires Step(h, P, M, h', lossless) && Follows(h, L, N) && CongruentOn(L, N)
    requires Identifies(L, P) && Justified(L, M, N)
    ensures Follows(h', L, N)
  {
    assert Justified(L, Edges(h) + M, N);
    JustifiedIsCongruent(L, Edges(h) + M, N);
    assert Obeys(L, h, P, M);
    JustifiedTransitive(L, Edges(h'), Edges(h) + M, N);
  }

  /** Whatever pointee the state answers, a solution identifies it with the one it stands for. */
  lemma PointeeFollows(h: Heap, o: Reference, L: Classes, N: set<Edge>)
    requires Follows(h, L, N) && Solves(L, N) && Edge(o, DIRECT_POINT_TO_FIELD, ValueAt(o)) in N
    ensures L(PointeeOf(h, o)) == L(ValueAt(o))
  {
    assert L(Root(h.parents, o)) == L(o);
    if DIRECT_POINT_TO_FIELD in Fields(h, o) {
      EdgeOf(h, o, DIRECT_POINT_TO_FIELD);
      var d := Edge(Root(h.parents, o), DIRECT_POINT_TO_FIELD, PointeeOf(h, o));
      assert JustifiedBy(L, d, N);
    }
  }

  lemma AddressFollows(h: Heap, q: Request, c: Context, obj: Value, fd: Field, addr: Value, L: Classes, N: set<Edge>)
    requires Follows(h, L, N) && Solves(L, N) && TakesAddress(c, h, q, obj, fd, addr)
    requires EdgesThrough(ValueAt(MakeReference(c, obj)), c, obj, fd, addr) <= N
    ensures q.pairs == {} && Justified(L, q.edges, N)
  {
    var o, t := MakeReference(c, obj), MakeReference(c, addr);
    var p := PointeeOf(h, o);
    var e, e' := Edge(o, DIRECT_POINT_TO_FIELD, ValueAt(o)), Edge(ValueAt(o), fd, t);
    assert e in EdgesThrough(ValueAt(o), c, obj, fd, addr) && e' in EdgesThrough(ValueAt(o), c, obj, fd, addr);
    PointeeFollows(h, o, L, N);
    hide Follows, Solves, MakeReference, PointeeOf;
    assert q.edges == {Edge(o, DIRECT_POINT_TO_FIELD, p)} + {Edge(p, fd, t)};
    JustifiedBySame(L, Edge(o, DIRECT_POINT_TO_FIELD, p), e, N);
    JustifiedBySame(L, Edge(p, fd, t), e', N);
  }

  lemma JustifiedBySame(L: Classes, d: Edge, e: Edge, N: set<Edge>)
    requires e in N && e.field == d.field && L(e.obj) == L(d.obj) && L(e.target) == L(d.target)
    ensures JustifiedBy(L, d, N)
  {
  }

  lemma AddressEdgesOf(contexts: seq<Context>, i: nat, obj: Value, fd: Field, addr: Value)
    requires i < |contexts|
    ensures EdgesThrough(ValueAt(MakeReference(contexts[i], obj)), contexts[i], obj, fd, addr) <=
            AllAddressEdges(contexts, obj, fd, addr)
  {
  }

  lemma {:induction false} AddressesFollow(contexts: seq<Context>, heaps: seq<Heap>, requests: seq<Request>,
                                           obj: Value, fd: Field, addr: Value, n: nat, L: Classes, N: set<Edge>)
    requires TakesAddresses(contexts, heaps, requests, obj, fd, addr) && n <= |contexts|
    requires Follows(heaps[0], L, N) && Solves(L, N) && AllAddressEdges(contexts, obj, fd, addr) <= N
    ensures Follows(heaps[n], L, N)
    ensures forall i | 0 <= i < n :: Justified(L, requests[i].edges, N)
    decreases n
  {
    hide Follows, Solves, Step, AllAddressEdges, AddressEdges;
    if n > 0 {
      var i := n - 1;
      AddressesFollow(contexts, heaps, requests, obj, fd, addr, i, L, N);
      AddressEdgesOf(contexts, i, obj, fd, addr);
      assert TakesAddress(contexts[i], heaps[i], requests[i], obj, fd, addr) && Honours(heaps, requests, false, i);
      AddressFollows(heaps[i], requests[i], contexts[i], obj, fd, addr, L, N);
      SolvesIsCongruent(L, N);
      StepFollows(heaps[i], requests[i].pairs, requests[i].edges, heaps[i + 1], false, L, N);
    }
  }

  lemma SolvesIsCongruent(L: Classes, N: set<Edge>)
    requires Solves(L, N)
    ensures CongruentOn(L, N)
  {
  }

  /** Every request for an instruction is one that a solution of its constraint satisfies. */
  lemma RequestFollows(vis: Visitor, i: Instruction, h: Heap, q: Request, L: Classes, N: set<Edge>)
    requires RequestOf(vis, i, h, q) && Follows(h, L, N) && Solves(L, N)
    requires Identifies(L, Constraint(vis, i).pairs) && Constraint(vis, i).edges <= N
    ensures Identifies(L, q.pairs) && Justified(L, q.edges, N)
  {
    if i.TakeFieldAddress? {
      var cs := vis.GetContexts(i.addr);
      var heaps: seq<Heap>, requests: seq<Request> :| TakesAddresses(cs, heaps, requests, i.obj, i.fd, i.addr)
        && heaps[0] == h && q == Request({}, FieldEdges(requests));
      AddressesFollow(cs, heaps, requests, i.obj, i.fd, i.addr, |cs|, L, N);
      forall d <- q.edges ensures JustifiedBy(L, d, N) {
        var j :| 0 <= j < |requests| && d in requests[j].edges;
        assert Justified(L, requests[j].edges, N);
      }
    } else {
      JustifiedReflexive(L, q.edges, N);
    }
  }

  lemma {:induction false} TraversalFollows(vis: Visitor, instructions: seq<Instruction>, heaps: seq<Heap>,
                                            requests: seq<Request>, lossless: bool, n: nat, L: Classes, N: set<Edge>)
    requires IsTraversal(vis, instructions, heaps, requests, lossless) && n <= |instructions|
    requires Solves(L, N)
    requires forall i <- instructions :: Identifies(L, Constraint(vis, i).pairs) && Constraint(vis, i).edges <= N
    ensures Follows(heaps[n], L, N)
    ensures forall i | 0 <= i < n :: Identifies(L, requests[i].pairs) && Justified(L, requests[i].edges, N)
    decreases n
  {
    hide Follows, Solves, Step, RequestOf, Constraint, Identifies, Justified;
    if n > 0 {
      var i := n - 1;
      TraversalFollows(vis, instructions, heaps, requests, lossless, i, L, N);
      assert instructions[i] in instructions && Honours(heaps, requests, lossless, i);
      RequestFollows(vis, instructions[i], heaps[i], requests[i], L, N);
      SolvesIsCongruent(L, N);
      StepFollows(heaps[i], requests[i].pairs, requests[i].edges, heaps[n], lossless, L, N);
    } else {
      EmptyFollows(L, N);
    }
  }

  lemma EmptyFollows(L: Classes, N: set<Edge>)
    ensures WellFormed(EMPTY_HEAP) ==> Follows(EMPTY_HEAP, L, N)
  {
  }

  lemma InConstraints(vis: Visitor, instructions: seq<Instruction>)
    ensures forall i <- instructions :: Constraint(vis, i).pairs <= Pairs(Constraints(vis, instructions))
    ensures forall i <- instructions :: Constraint(vis, i).edges <= FieldEdges(Constraints(vis, instructions))
  {
    forall i | i in instructions ensures Constraint(vis, i) in Constraints(vis, instructions) {
      var j :| 0 <= j < |instructions| && instructions[j] == i;
      assert Constraints(vis, instructions)[j] == Constraint(vis, i);
    }
  }

  lemma SolutionSolves(E: Relation, constraints: seq<Request>)
    requires IsSolution(E, constraints)
    ensures Identifies(ClassOf(E), Pairs(constraints)) && Solves(ClassOf(E), FieldEdges(constraints))
  {
    var L, N := ClassOf(E), FieldEdges(constraints);
    forall a, b ensures L(a) == L(b) <==> E(a, b) {
      ClassesDecideEquivalence(E, a, b);
    }
  }

  /** A solution of the constraints is a congruence of the requests of every run, lossless or not; so is one that keeps
      fields apart. */
  lemma SolutionIsCongruence(vis: Visitor, instructions: seq<Instruction>, heaps: seq<Heap>, requests: seq<Request>,
                             lossless: bool, E: Relation)
    requires IsTraversal(vis, instructions, heaps, requests, lossless) && IsSolution(E, Constraints(vis, instructions))
    ensures IsCongruence(E, Pairs(requests), FieldEdges(requests))
    ensures KeepsApart(E, FieldEdges(Constraints(vis, instructions))) ==> KeepsApart(E, FieldEdges(requests))
  {
    var L, N := ClassOf(E), FieldEdges(Constraints(vis, instructions));
    SolutionSolves(E, Constraints(vis, instructions));
    InConstraints(vis, instructions);
    SolvesIsCongruent(L, N);
    IdentifiesParts(vis, instructions, L);
    hide Solves, IsTraversal, Constraints;
    TraversalFollows(vis, instructions, heaps, requests, lossless, |instructions|, L, N);
    RequestsFollow(vis, instructions, heaps, requests, lossless, L, N);
    JustifiedIsCongruent(L, FieldEdges(requests), N);
    CongruentIsCongruence(E, Pairs(requests), FieldEdges(requests));
    if KeepsApart(E, N) {
      ApartIsSeparated(E, N);
      JustifiedIsSeparated(L, FieldEdges(requests), N);
      ApartIsSeparated(E, FieldEdges(requests));
    }
  }

  lemma IdentifiesParts(vis: Visitor, instructions: seq<Instruction>, L: Classes)
    requires Identifies(L, Pairs(Constraints(vis, instructions)))
    ensures forall i <- instructions :: Identifies(L, Constraint(vis, i).pairs)
  {
    hide Constraint;
    InConstraints(vis, instructions);
  }

  lemma RequestsFollow(vis: Visitor, instructions: seq<Instruction>, heaps: seq<Heap>, requests: seq<Request>,
                       lossless: bool, L: Classes, N: set<Edge>)
    requires IsTraversal(vis, instructions, heaps, requests, lossless)
    requires forall i | 0 <= i < |instructions| ::
               Identifies(L, requests[i].pairs) && Justified(L, requests[i].edges, N)
    ensures Identifies(L, Pairs(requests)) && Justified(L, FieldEdges(requests), N)
  {
    hide IsRun, RequestOf;
    forall p <- Pairs(requests) ensures L(p.0) == L(p.1) {
      var i :| 0 <= i < |requests| && p in requests[i].pairs;
      assert Identifies(L, requests[i].pairs);
    }
    forall d <- FieldEdges(requests) ensures JustifiedBy(L, d, N) {
      var i :| 0 <= i < |requests| && d in requests[i].edges;
      assert Justified(L, requests[i].edges, N);
    }
  }

  lemma CongruentIsCongruence(E: Relation, P: set<Pair>, N: set<Edge>)
    requires Equivalence(E) && Identifies(ClassOf(E), P) && CongruentOn(ClassOf(E), N)
    ensures IsCongruence(E, P, N)
  {
    forall a, b ensures ClassOf(E)(a) == ClassOf(E)(b) <==> E(a, b) {
      ClassesDecideEquivalence(E, a, b);
    }
  }

  // ---- a lossless run is a solution itself ----

  /** The reference that stands for x in h: ValueAt(o) means what o points to. */
  ghost function Meaning(h: Heap, x: Reference): Reference
    requires WellFormed(h)
  {
    if x.Synthetic? && x.kind.ValueOf? then PointeeOf(h, Meaning(h, x.ref)) else x
  }

  ghost function SameMeaning(h: Heap): Relation
    requires WellFormed(h)
  {
    (a, b) => WellFormed(h) && Same(h, Meaning(h, a), Meaning(h, b))
  }

  ghost function MeaningOf(h: Heap, e: Edge): Edge
    requires WellFormed(h)
  {
    Edge(Meaning(h, e.obj), e.field, Meaning(h, e.target))
  }

  lemma SamePointee(h: Heap, a: Reference, b: Reference)
    requires WellFormed(h) && SameMeaning(h)(a, b)
    ensures Meaning(h, ValueAt(a)) == Meaning(h, ValueAt(b))
  {
    FieldsOfRoot(h, Meaning(h, a));
    FieldsOfRoot(h, Meaning(h, b));
  }

  ghost predicate IsPlain(q: Request) {
    && (forall p <- q.pairs :: !p.0.Synthetic? && !p.1.Synthetic?)
    && (forall e <- q.edges :: !e.obj.Synthetic? && !e.target.Synthetic?)
  }

  lemma ConstraintIsPlain(vis: Visitor, i: Instruction)
    requires !i.TakeFieldAddress?
    ensures IsPlain(Constraint(vis, i))
  {
    hide FirstMatch;
  }

  /** The state has what the constraint demands, read by its meaning. */
  ghost predicate Has(h: Heap, q: Request)
    requires WellFormed(h)
  {
    && (forall p <- q.pairs :: Same(h, Meaning(h, p.0), Meaning(h, p.1)))
    && (forall e <- q.edges :: HasEdge(h, MeaningOf(h, e)))
  }

  lemma AddressHas(h: Heap, h0: Heap, q: Request, c: Context, obj: Value, fd: Field, addr: Value)
    requires WellFormed(h) && TakesAddress(c, h0, q, obj, fd, addr) && forall e <- q.edges :: HasEdge(h, e)
    ensures Has(h, Request({}, EdgesThrough(ValueAt(MakeReference(c, obj)), c, obj, fd, addr)))
  {
    var o, t := MakeReference(c, obj), MakeReference(c, addr);
    var p, p' := PointeeOf(h0, o), PointeeOf(h, o);
    hide MakeReference;
    var e, e' := Edge(o, DIRECT_POINT_TO_FIELD, p), Edge(p, fd, t);
    assert e in q.edges && e' in q.edges;
    assert HasEdge(h, e) && HasEdge(h, e');
    assert Same(h, p', p);
    FieldsOfRoot(h, p);
    FieldsOfRoot(h, p');
    assert HasEdge(h, Edge(o, DIRECT_POINT_TO_FIELD, p')) && HasEdge(h, Edge(p', fd, t));
  }

  lemma ConstraintHas(vis: Visitor, i: Instruction, h0: Heap, q: Request, h: Heap)
    requires WellFormed(h) && RequestOf(vis, i, h0, q)
    requires (forall p <- q.pairs :: Same(h, p.0, p.1)) && forall e <- q.edges :: HasEdge(h, e)
    ensures Has(h, Constraint(vis, i))
  {
    if i.TakeFieldAddress? {
      var cs := vis.GetContexts(i.addr);
      var heaps: seq<Heap>, requests: seq<Request> :| TakesAddresses(cs, heaps, requests, i.obj, i.fd, i.addr)
        && heaps[0] == h0 && q == Request({}, FieldEdges(requests));
      AddressesHave(cs, heaps, requests, i.obj, i.fd, i.addr, h);
    } else {
      ConstraintIsPlain(vis, i);
    }
  }

  lemma AddressesHave(contexts: seq<Context>, heaps: seq<Heap>, requests: seq<Request>, obj: Value, fd: Field,
                      addr: Value, h: Heap)
    requires WellFormed(h) && TakesAddresses(contexts, heaps, requests, obj, fd, addr)
    requires forall e <- FieldEdges(requests) :: HasEdge(h, e)
    ensures Has(h, Request({}, AllAddressEdges(contexts, obj, fd, addr)))
  {
    hide HasEdge, EdgesThrough, Step, TakesAddress;
    forall e <- AllAddressEdges(contexts, obj, fd, addr) ensures HasEdge(h, MeaningOf(h, e)) {
      var i :| 0 <= i < |contexts| && e in EdgesThrough(ValueAt(MakeReference(contexts[i], obj)), contexts[i], obj, fd,
                                                        addr);
      assert TakesAddress(contexts[i], heaps[i], requests[i], obj, fd, addr);
      assert requests[i] in requests;
      AddressHas(h, heaps[i], requests[i], contexts[i], obj, fd, addr);
    }
  }

  /** What a lossless run leaves behind satisfies all constraints. */
  lemma LosslessIsSolution(vis: Visitor, instructions: seq<Instruction>, heaps: seq<Heap>, requests: seq<Request>)
    requires IsTraversal(vis, instructions, heaps, requests, true)
    ensures WellFormed(heaps[|instructions|])
    ensures IsSolution(SameMeaning(heaps[|instructions|]), Constraints(vis, instructions))
  {
    var n := |instructions|;
    var h := heaps[n];
    RunIsWellFormed(heaps, requests, true, n);
    forall i <- instructions ensures Has(h, Constraint(vis, i)) {
      var j :| 0 <= j < n && instructions[j] == i;
      RequestIsKept(heaps, requests, true, j);
      ConstraintHas(vis, i, heaps[j], requests[j], h);
    }
    ConstraintsHave(vis, instructions, h);
    HavingIsSolving(h, Constraints(vis, instructions));
  }

  lemma ConstraintsHave(vis: Visitor, instructions: seq<Instruction>, h: Heap)
    requires WellFormed(h) && forall i <- instructions :: Has(h, Constraint(vis, i))
    ensures forall q <- Constraints(vis, instructions) :: Has(h, q)
  {
    hide Has, Constraint;
    forall q <- Constraints(vis, instructions) ensures Has(h, q) {
      var j :| 0 <= j < |instructions| && Constraints(vis, instructions)[j] == q;
      assert instructions[j] in instructions;
    }
  }

  lemma RequestIsKept(heaps: seq<Heap>, requests: seq<Request>, lossless: bool, i: nat)
    requires IsRun(heaps, requests, lossless) && i < |requests|
    ensures WellFormed(heaps[|requests|])
    ensures forall p <- requests[i].pairs :: Same(heaps[|requests|], p.0, p.1)
    ensures forall e <- requests[i].edges ::
              HasField(heaps[|requests|], e) && (lossless ==> HasEdge(heaps[|requests|], e))
  {
    hide Step, Same, HasEdge, HasField, WellFormed;
    assert |heaps| - 1 == |requests|;
    var r: Reference := Global(GlobalVariable(0, 0, true));
    var d := Edge(r, DIRECT_POINT_TO_FIELD, r);
    Persistence(heaps, requests, lossless, i + 1, r, r, d);
    forall p <- requests[i].pairs ensures Same(heaps[|requests|], p.0, p.1) {
      Persistence(heaps, requests, lossless, i + 1, p.0, p.1, d);
      assert (p.0, p.1) in requests[i].pairs;
    }
    forall e <- requests[i].edges
      ensures HasField(heaps[|requests|], e) && (lossless ==> HasEdge(heaps[|requests|], e))
    {
      Persistence(heaps, requests, lossless, i + 1, r, r, e);
    }
  }

  lemma HavingIsSolving(h: Heap, constraints: seq<Request>)
    requires WellFormed(h) && forall q <- constraints :: Has(h, q)
    ensures IsSolution(SameMeaning(h), constraints)
  {
    var E := SameMeaning(h);
    forall a, b | E(a, b) ensures E(ValueAt(a), ValueAt(b)) {
      SamePointee(h, a, b);
    }
    forall d, e | d in FieldEdges(constraints) && e in FieldEdges(constraints) && d.field == e.field && E(d.obj, e.obj)
      ensures E(d.target, e.target)
    {
      HasOneTarget(h, constraints, d, e);
    }
  }

  lemma HasOneTarget(h: Heap, constraints: seq<Request>, d: Edge, e: Edge)
    requires WellFormed(h) && forall q <- constraints :: Has(h, q)
    requires d in FieldEdges(constraints) && e in FieldEdges(constraints)
    requires d.field == e.field && SameMeaning(h)(d.obj, e.obj)
    ensures SameMeaning(h)(d.target, e.target)
  {
    assert HasEdge(h, MeaningOf(h, d)) && HasEdge(h, MeaningOf(h, e));
    FieldsOfRoot(h, Meaning(h, d.obj));
    FieldsOfRoot(h, Meaning(h, e.obj));
  }

  // ---- the theorem ----

  /** On references of program values the partition of a lossless run is the least solution of the constraints, whatever
      pointees were synthesised on the way. */
  lemma LeastSolution(vis: Visitor, instructions: seq<Instruction>, heaps: seq<Heap>, requests: seq<Request>,
                      a: Reference, b: Reference)
    requires IsTraversal(vis, instructions, heaps, requests, true) && !a.Synthetic? && !b.Synthetic?
    ensures WellFormed(heaps[|instructions|])
    ensures Same(heaps[|instructions|], a, b) <==> forall E | IsSolution(E, Constraints(vis, instructions)) :: E(a, b)
  {
    LosslessIsSolution(vis, instructions, heaps, requests);
    var own := SameMeaning(heaps[|instructions|]);
    assert own(a, b) <==> Same(heaps[|instructions|], a, b);
    hide IsSolution, Same, SameMeaning, Constraints;
    if Same(heaps[|instructions|], a, b) {
      forall E | IsSolution(E, Constraints(vis, instructions)) ensures E(a, b) {
        OnlySolved(vis, instructions, heaps, requests, true, E, a, b);
      }
    }
  }

  /** No run, lossless or not, unifies references that some solution tells apart. */
  lemma OnlySolved(vis: Visitor, instructions: seq<Instruction>, heaps: seq<Heap>, requests: seq<Request>,
                   lossless: bool, E: Relation, a: Reference, b: Reference)
    requires IsTraversal(vis, instructions, heaps, requests, lossless) && IsSolution(E, Constraints(vis, instructions))
    ensures WellFormed(heaps[|instructions|])
    ensures Same(heaps[|instructions|], a, b) ==> E(a, b)
  {
    var n := |instructions|;
    SolutionIsCongruence(vis, instructions, heaps, requests, lossless, E);
    hide IsSolution, IsCongruence, Step, Constraints, RequestOf;
    RunIsWellFormed(heaps, requests, lossless, n);
    RunIsStep(heaps, requests, lossless, 0, n);
    assert requests[0..n] == requests;
    if Same(heaps[n], a, b) {
      OnlyForcedUnifications(Pairs(requests), FieldEdges(requests), heaps[n], lossless, E, a, b);
    }
  }

  /** Where some solution keeps the fields of a class apart, nothing is lost. The condition is on the instructions
      alone. */
  lemma ApartLosesNothing(vis: Visitor, instructions: seq<Instruction>, heaps: seq<Heap>, requests: seq<Request>,
                          lossless: bool, E: Relation)
    requires IsTraversal(vis, instructions, heaps, requests, lossless) && IsApart(E, Constraints(vis, instructions))
    ensures Separable(EMPTY_HEAP, Pairs(requests), FieldEdges(requests))
  {
    SolutionIsCongruence(vis, instructions, heaps, requests, lossless, E);
    ApartIsSeparable(E, Pairs(requests), FieldEdges(requests));
  }

  /** Functions are visited in the order of a Go map. Lossless traversals of the same instructions in any order
      agree. */
  lemma TraversalOrderIsIrrelevant(vis: Visitor, instructions: seq<Instruction>, heaps: seq<Heap>,
                                   requests: seq<Request>,
                                   instructions': seq<Instruction>, heaps': seq<Heap>, requests': seq<Request>,
                                   a: Reference, b: Reference)
    requires IsTraversal(vis, instructions, heaps, requests, true)
    requires IsTraversal(vis, instructions', heaps', requests', true)
    requires (forall i :: i in instructions <==> i in instructions') && !a.Synthetic? && !b.Synthetic?
    ensures WellFormed(heaps[|instructions|]) && WellFormed(heaps'[|instructions'|])
    ensures Same(heaps[|instructions|], a, b) <==> Same(heaps'[|instructions'|], a, b)
  {
    hide IsTraversal, IsCongruence;
    ConstraintsOf(vis, instructions);
    ConstraintsOf(vis, instructions');
    var cs, cs' := Constraints(vis, instructions), Constraints(vis, instructions');
    assert forall q :: q in cs <==> q in cs';
    assert Pairs(cs) == Pairs(cs') && FieldEdges(cs) == FieldEdges(cs');
    LeastSolution(vis, instructions, heaps, requests, a, b);
    LeastSolution(vis, instructions', heaps', requests', a, b);
  }

  lemma ConstraintsOf(vis: Visitor, instructions: seq<Instruction>)
    ensures forall q :: q in Constraints(vis, instructions) <==> exists i <- instructions :: q == Constraint(vis, i)
  {
    hide Constraint;
    forall i | i in instructions ensures Constraint(vis, i) in Constraints(vis, instructions) {
      var j :| 0 <= j < |instructions| && instructions[j] == i;
      assert Constraints(vis, instructions)[j] == Constraint(vis, i);
    }
  }
}
