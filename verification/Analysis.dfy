/** The analysis of a package (analyze in internal/pkg/earpointer/analysis.go), said of its instructions, the contexts
    of functions and the final heap. */
module Analysis {
  import opened References
  import opened UnionFind
  import opened AbstractHeap
  import opened EarState
  import opened CallStrings
  import opened Congruence
  import opened Visitor
  import CallBinding
  import opened Demands
  import opened Solutions

  // ---- models of the instructions ----

  /** An equivalence with all demanded pairs in which demanded edges that leave one class by one field lead to one
      class, and addresses of one class point to one class. */
  ghost predicate IsModel(E: Relation, contexts: ContextMap, k: int, instructions: seq<Instruction>) {
    && Equivalence(E)
    && (forall i, p | i in instructions && DemandsPair(contexts, k, i, p) :: E(p.0, p.1))
    && (forall i, j, d, e | i in instructions && j in instructions && DemandsEdge(contexts, i, d)
          && DemandsEdge(contexts, j, e) && d.field == e.field && E(d.obj, e.obj) :: E(d.target, e.target))
    && forall a, b {:trigger ValueAt(a), ValueAt(b)} | E(a, b) :: E(ValueAt(a), ValueAt(b))
  }

  /** Demanded edges that leave one class by different fields lead to different classes. */
  ghost predicate KeepsFieldsApart(E: Relation, contexts: ContextMap, instructions: seq<Instruction>) {
    forall i, j, d, e | i in instructions && j in instructions && DemandsEdge(contexts, i, d)
      && DemandsEdge(contexts, j, e) && d.field != e.field && E(d.obj, e.obj) :: !E(d.target, e.target)
  }

  lemma ConstraintsAreDemands(vis: Visitor, instructions: seq<Instruction>)
    ensures forall p :: p in Pairs(Constraints(vis, instructions)) <==>
              exists i <- instructions :: DemandsPair(vis.contexts, vis.contextK, i, p)
    ensures forall e :: e in FieldEdges(Constraints(vis, instructions)) <==>
              exists i <- instructions :: DemandsEdge(vis.contexts, i, e)
  {
    hide Constraint, DemandsPair, DemandsEdge, Constraints;
    ConstraintsOf(vis, instructions);
    forall p ensures p in Pairs(Constraints(vis, instructions)) <==>
                       exists i <- instructions :: DemandsPair(vis.contexts, vis.contextK, i, p)
    {
      forall i ensures p in Constraint(vis, i).pairs <==> DemandsPair(vis.contexts, vis.contextK, i, p) {
        PairsAreDemanded(vis, i, p);
      }
    }
    forall e ensures e in FieldEdges(Constraints(vis, instructions)) <==>
                       exists i <- instructions :: DemandsEdge(vis.contexts, i, e)
    {
      forall i ensures e in Constraint(vis, i).edges <==> DemandsEdge(vis.contexts, i, e) {
        EdgesAreDemanded(vis, i, e);
      }
    }
  }

  lemma ModelsAreSolutions(vis: Visitor, instructions: seq<Instruction>, E: Relation)
    ensures IsModel(E, vis.contexts, vis.contextK, instructions) <==> IsSolution(E, Constraints(vis, instructions))
    ensures KeepsFieldsApart(E, vis.contexts, instructions) <==>
            KeepsApart(E, FieldEdges(Constraints(vis, instructions)))
  {
    ConstraintsAreDemands(vis, instructions);
    hide Constraints, DemandsPair, DemandsEdge, Pairs, FieldEdges;
  }

  // ---- what holds in the end ----

  /** Demanded pairs are in one class; a class that a demanded edge leaves has its field; and if nothing was lost the
      field leads to the class of the target, pointees read as what addresses point to. */
  ghost predicate Satisfies(h: Heap, contexts: ContextMap, k: int, i: Instruction, lossless: bool)
    requires WellFormed(h)
  {
    && (forall p | DemandsPair(contexts, k, i, p) :: Same(h, p.0, p.1))
    && (forall e | DemandsEdge(contexts, i, e) && !e.obj.Synthetic? :: HasField(h, e))
    && (lossless ==> forall e | DemandsEdge(contexts, i, e) :: HasEdge(h, MeaningOf(h, e)))
  }

  /** Every run satisfies its instructions, lossless or not. */
  lemma RunSatisfies(vis: Visitor, instructions: seq<Instruction>, heaps: seq<Heap>, requests: seq<Request>,
                     lossless: bool, i: nat)
    requires IsTraversal(vis, instructions, heaps, requests, lossless) && i < |instructions|
    ensures WellFormed(heaps[|instructions|])
    ensures Satisfies(heaps[|instructions|], vis.contexts, vis.contextK, instructions[i], lossless)
  {
    hide Constraint, DemandsPair, DemandsEdge, HasField, HasEdge, Same, Step, TakesAddresses;
    var h, instr, q := heaps[|instructions|], instructions[i], requests[i];
    RequestIsKept(heaps, requests, lossless, i);
    forall p ensures p in Constraint(vis, instr).pairs <==> DemandsPair(vis.contexts, vis.contextK, instr, p) {
      PairsAreDemanded(vis, instr, p);
    }
    forall e ensures e in Constraint(vis, instr).edges <==> DemandsEdge(vis.contexts, instr, e) {
      EdgesAreDemanded(vis, instr, e);
    }
    if lossless {
      ConstraintHas(vis, instr, heaps[i], q, h);
    }
    if instr.TakeFieldAddress? {
      AddressRequested(vis, instr, heaps[i], q, h);
    }
  }

  /** Taking a field address leaves the address pointing somewhere. */
  lemma AddressRequested(vis: Visitor, i: Instruction, h0: Heap, q: Request, h: Heap)
    requires i.TakeFieldAddress? && RequestOf(vis, i, h0, q) && WellFormed(h)
    requires forall e <- q.edges :: HasField(h, e)
    ensures forall p :: !DemandsPair(vis.contexts, vis.contextK, i, p)
    ensures forall e | DemandsEdge(vis.contexts, i, e) && !e.obj.Synthetic? :: HasField(h, e)
  {
    var cs := vis.GetContexts(i.addr);
    var heaps: seq<Heap>, requests: seq<Request> :| TakesAddresses(cs, heaps, requests, i.obj, i.fd, i.addr)
      && heaps[0] == h0 && q == Request({}, FieldEdges(requests));
    AllPointSomewhere(vis, i, heaps, requests, q, h);
    hide RequestOf, TakesAddresses, FieldEdges, HasField, Fields, DemandsEdge;
    forall e | DemandsEdge(vis.contexts, i, e) && !e.obj.Synthetic? ensures HasField(h, e) {
      var c := AddressContext(vis, i, e);
      HasFieldIff(h, e);
    }
  }

  lemma AllPointSomewhere(vis: Visitor, i: Instruction, heaps: seq<Heap>, requests: seq<Request>, q: Request, h: Heap)
    requires i.TakeFieldAddress? && q == Request({}, FieldEdges(requests))
    requires TakesAddresses(vis.GetContexts(i.addr), heaps, requests, i.obj, i.fd, i.addr)
    requires WellFormed(h) && forall e <- q.edges :: HasField(h, e)
    ensures forall c <- vis.GetContexts(i.addr) :: DIRECT_POINT_TO_FIELD in Fields(h, MakeReference(c, i.obj))
  {
    var cs := vis.GetContexts(i.addr);
    hide TakesAddresses, FieldEdges, HasField, Fields;
    forall c <- cs ensures DIRECT_POINT_TO_FIELD in Fields(h, MakeReference(c, i.obj)) {
      var j :| 0 <= j < |cs| && cs[j] == c;
      PointsSomewhere(cs, heaps, requests, i.obj, i.fd, i.addr, j, q, h);
    }
  }

  lemma HasFieldIff(h: Heap, e: Edge)
    requires WellFormed(h)
    ensures HasField(h, e) <==> e.field in Fields(h, e.obj)
  {
  }

  lemma AddressContext(vis: Visitor, i: Instruction, e: Edge) returns (c: Context)
    requires i.TakeFieldAddress? && DemandsEdge(vis.contexts, i, e) && !e.obj.Synthetic?
    ensures c in vis.GetContexts(i.addr) && e.obj == MakeReference(c, i.obj) && e.field == DIRECT_POINT_TO_FIELD
  {
    EdgesAreDemanded(vis, i, e);
    c :| c in vis.GetContexts(i.addr) && e in EdgesThrough(ValueAt(MakeReference(c, i.obj)), c, i.obj, i.fd, i.addr);
  }

  lemma PointsSomewhere(cs: seq<Context>, heaps: seq<Heap>, requests: seq<Request>, obj: Value, fd: Field, addr: Value,
                        j: nat, q: Request, h: Heap)
    requires TakesAddresses(cs, heaps, requests, obj, fd, addr) && j < |cs| && q == Request({}, FieldEdges(requests))
    requires WellFormed(h) && forall e <- q.edges :: HasField(h, e)
    ensures DIRECT_POINT_TO_FIELD in Fields(h, MakeReference(cs[j], obj))
  {
    hide Step;
    assert TakesAddress(cs[j], heaps[j], requests[j], obj, fd, addr);
    var o := MakeReference(cs[j], obj);
    var e := Edge(o, DIRECT_POINT_TO_FIELD, PointeeOf(heaps[j], o));
    assert e in requests[j].edges && requests[j] in requests;
    assert e in q.edges;
    assert HasField(h, e);
  }

  /** The contexts of the functions, then the traversal from the empty state. All instructions are satisfied. Related
      references are only those that every model relates; and if some model keeps fields apart nothing is lost, and on
      references of program values the result is the least model. */
  method Analyze(g: CallGraph, k: int, instructions: seq<Instruction>) returns (vis: Visitor)
    ensures fresh(vis) && vis.Valid()
    ensures vis.contexts.Keys == g.Keys && forall fn <- g :: ContextsOf(g, fn, k, vis.contexts[fn])
    ensures forall v, c, r | Declare(v) in instructions && OccursIn(vis.contexts, v, c) && IsReferenceTo(r, c, v) ::
              r in vis.state.parents
    ensures forall i <- instructions :: Satisfies(vis.state.Snapshot(), vis.contexts, k, i, vis.state.Lossless())
    ensures forall E, a, b | IsModel(E, vis.contexts, k, instructions) && Same(vis.state.Snapshot(), a, b) :: E(a, b)
    ensures HasApartModel(vis.contexts, k, instructions) ==>
              vis.state.Lossless() && IsLeastModel(vis.state.Snapshot(), vis.contexts, k, instructions)
  {
    hide Step, IsRun, RequestOf, IsSolution, Separable, Same, ContextsOf, PointeesSettled, WellFormed, Satisfies;
    hide IsModel, KeepsFieldsApart, Constraints, OccursIn, IsReferenceTo, KeepsApart;
    vis := new Visitor(k);
    vis.InitContexts(g);
    ghost var heaps, requests := vis.VisitAll(instructions);
    ghost var h, lossless := vis.state.Snapshot(), vis.state.Lossless();
    DeclaredAreIn(vis, instructions, h);
    forall i | 0 <= i < |instructions| ensures Satisfies(h, vis.contexts, k, instructions[i], lossless) {
      RunSatisfies(vis, instructions, heaps, requests, lossless, i);
    }
    forall E ensures IsModel(E, vis.contexts, k, instructions) <==> IsSolution(E, Constraints(vis, instructions)) {
      ModelsAreSolutions(vis, instructions, E);
    }
    forall E, a, b | IsModel(E, vis.contexts, k, instructions) && Same(h, a, b) ensures E(a, b) {
      OnlySolved(vis, instructions, heaps, requests, lossless, E, a, b);
    }
    if E :| IsModel(E, vis.contexts, k, instructions) && KeepsFieldsApart(E, vis.contexts, instructions) {
      ModelsAreSolutions(vis, instructions, E);
      ApartLosesNothing(vis, instructions, heaps, requests, lossless, E);
      forall a: Reference, b: Reference | !a.Synthetic? && !b.Synthetic?
        ensures Same(h, a, b) <==> forall E | IsModel(E, vis.contexts, k, instructions) :: E(a, b)
      {
        LeastSolution(vis, instructions, heaps, requests, a, b);
      }
    }
  }

  ghost predicate HasApartModel(contexts: ContextMap, k: int, instructions: seq<Instruction>) {
    exists E :: IsModel(E, contexts, k, instructions) && KeepsFieldsApart(E, contexts, instructions)
  }

  ghost predicate IsLeastModel(h: Heap, contexts: ContextMap, k: int, instructions: seq<Instruction>)
    requires WellFormed(h)
  {
    forall a: Reference, b: Reference | !a.Synthetic? && !b.Synthetic? ::
      Same(h, a, b) <==> forall E | IsModel(E, contexts, k, instructions) :: E(a, b)
  }

  lemma DeclaredAreIn(vis: Visitor, instructions: seq<Instruction>, h: Heap)
    requires forall i <- instructions :: IsDeclared(vis, i, h)
    ensures forall v, c, r | Declare(v) in instructions && OccursIn(vis.contexts, v, c) && IsReferenceTo(r, c, v) ::
              r in h.parents
  {
    forall v, c, r | Declare(v) in instructions && OccursIn(vis.contexts, v, c) && IsReferenceTo(r, c, v)
      ensures r in h.parents
    {
      ContextsAreThose(vis, v, c);
      ReferenceIsThat(c, v, r);
      assert IsDeclared(vis, Declare(v), h);
    }
  }

  // ---- what that means for each kind of instruction ----

  /** Two locals that may alias are unified in every context of the first one's function. */
  lemma LocalsAreUnified(h: Heap, contexts: ContextMap, k: int, u: Value, v: Value, lossless: bool, c: Context)
    requires WellFormed(h) && Satisfies(h, contexts, k, UnifyValues(u, v), lossless)
    requires u.Register? && u.parent.Some? && u.parent.value in contexts && c in contexts[u.parent.value]
    requires u.shareable && u.local && v.Register? && v.shareable && v.local
    ensures Same(h, Local(c, u), Local(c, v))
  {
    assert OccursIn(contexts, u, c) && IsReferenceTo(Local(c, u), c, u) && IsReferenceTo(Local(c, v), c, v);
    assert DemandsPair(contexts, k, UnifyValues(u, v), (Local(c, u), Local(c, v)));
  }

  /** A global unifies with a local's reference in every context, and so joins them all. */
  lemma GlobalsJoinContexts(h: Heap, contexts: ContextMap, k: int, u: Value, v: Value, lossless: bool, c: Context,
                            c': Context)
    requires WellFormed(h) && Satisfies(h, contexts, k, UnifyValues(u, v), lossless)
    requires u.Register? && u.parent.Some? && u.parent.value in contexts
    requires c in contexts[u.parent.value] && c' in contexts[u.parent.value]
    requires u.shareable && u.local && v.GlobalVariable? && v.shareable
    ensures Same(h, Local(c, u), Global(v)) && Same(h, Local(c, u), Local(c', u))
  {
    assert OccursIn(contexts, u, c) && IsReferenceTo(Local(c, u), c, u) && IsReferenceTo(Global(v), c, v);
    assert DemandsPair(contexts, k, UnifyValues(u, v), (Local(c, u), Global(v)));
    assert OccursIn(contexts, u, c') && IsReferenceTo(Local(c', u), c', u) && IsReferenceTo(Global(v), c', v);
    assert DemandsPair(contexts, k, UnifyValues(u, v), (Local(c', u), Global(v)));
  }

  /** In every context of the base its class has the accessed field, which, if nothing was lost, holds the data. */
  lemma FieldsAreHeld(h: Heap, contexts: ContextMap, k: int, data: Value, base: Value, fd: Field, lossless: bool,
                      c: Context)
    requires WellFormed(h) && Satisfies(h, contexts, k, AccessHeap(data, base, fd), lossless)
    requires base.Register? && base.parent.Some? && base.parent.value in contexts && c in contexts[base.parent.value]
    requires data.Register? && data.shareable
    ensures fd in Fields(h, Local(c, base))
    ensures lossless ==> Same(h, Fields(h, Local(c, base))[fd], Local(c, data))
  {
    var e := Edge(Local(c, base), fd, Local(c, data));
    assert OccursIn(contexts, base, c) && IsEdgeIn(e, c, base, fd, data);
    assert DemandsEdge(contexts, AccessHeap(data, base, fd), e);
    assert HasField(h, e);
    if lossless {
      assert MeaningOf(h, e) == e;
      assert HasEdge(h, MeaningOf(h, e));
    }
  }

  /** In every context the address points to the value. */
  lemma AddressesPointToValues(h: Heap, contexts: ContextMap, k: int, addr: Value, value: Value, lossless: bool,
                               c: Context)
    requires WellFormed(h) && Satisfies(h, contexts, k, LoadStore(addr, value), lossless)
    requires addr.Register? && addr.parent.Some? && addr.parent.value in contexts && c in contexts[addr.parent.value]
    requires addr.shareable && value.Register? && value.shareable
    ensures Field("->", None) in Fields(h, Local(c, addr))
    ensures lossless ==> Same(h, Fields(h, Local(c, addr))[Field("->", None)], Local(c, value))
  {
    var e := Edge(Local(c, addr), Field("->", None), Local(c, value));
    assert OccursIn(contexts, addr, c) && IsEdgeIn(e, c, addr, Field("->", None), value);
    assert DemandsEdge(contexts, LoadStore(addr, value), e);
    assert HasField(h, e);
    if lossless {
      assert MeaningOf(h, e) == e;
      assert HasEdge(h, MeaningOf(h, e));
    }
  }

  /** In every context of the field address the object points somewhere, and that has the address as its field. */
  lemma FieldAddressesAreFields(h: Heap, contexts: ContextMap, k: int, obj: Value, fd: Field, addr: Value,
                                lossless: bool, c: Context)
    requires WellFormed(h) && Satisfies(h, contexts, k, TakeFieldAddress(obj, fd, addr), lossless)
    requires addr.Register? && addr.parent.Some? && addr.parent.value in contexts && c in contexts[addr.parent.value]
    requires obj.Register?
    ensures Field("->", None) in Fields(h, Local(c, obj))
    ensures lossless ==>
              var pointee := Fields(h, Local(c, obj))[Field("->", None)];
              fd in Fields(h, pointee) && Same(h, Fields(h, pointee)[fd], Local(c, addr))
  {
    var i, o, t := TakeFieldAddress(obj, fd, addr), Local(c, obj), Local(c, addr);
    var e, e' := Edge(o, Field("->", None), Synthetic(ValueOf, o)), Edge(Synthetic(ValueOf, o), fd, t);
    assert OccursIn(contexts, addr, c) && IsReferenceTo(o, c, obj) && IsReferenceTo(t, c, addr);
    assert DemandsEdge(contexts, i, e) && DemandsEdge(contexts, i, e');
    assert HasField(h, e);
    if lossless {
      assert HasEdge(h, MeaningOf(h, e'));
      assert Meaning(h, Synthetic(ValueOf, o)) == PointeeOf(h, o);
    }
  }

  /** At a call edge a local argument is unified, in each context of the caller, with the parameter in exactly one
      context of the callee: the one whose sites end the caller's, extended by the call. */
  lemma ArgumentsMeetParameters(h: Heap, g: CallGraph, contexts: ContextMap, k: int, callee: Function, e: CallEdge,
                                arg: Value, param: Value, lossless: bool, c: Context)
    returns (d: Context)
    requires WellFormedGraph(g) && callee in g && e in g[callee] && e.caller in g
    requires contexts.Keys == g.Keys && forall fn <- g :: ContextsOf(g, fn, k, contexts[fn])
    requires WellFormed(h) && Satisfies(h, contexts, k, BindArgument(arg, param, e.site), lossless)
    requires arg.Register? && arg.parent == Some(e.caller) && c in contexts[e.caller]
    requires param.Register? && param.parent == Some(callee)
    ensures d in contexts[callee] && EndsIn(c.Sites() + [e.site], d.Sites())
    ensures forall x <- contexts[callee] | EndsIn(c.Sites() + [e.site], x.Sites()) :: x == d
    ensures Same(h, Local(c, arg), Local(d, param))
  {
    hide IsCallString, LastK, EndsIn, WellFormedGraph, ContextsOf, Satisfies;
    d := EndingContext(g, k, callee, e, contexts[e.caller], c, contexts[callee]);
    FirstIsBound(contexts, k, c, e.site, param, d);
    BoundIsUnified(h, contexts, k, arg, param, e.site, lossless, c, d);
  }

  lemma BoundIsUnified(h: Heap, contexts: ContextMap, k: int, arg: Value, param: Value, site: Site, lossless: bool,
                       c: Context, d: Context)
    requires WellFormed(h) && Satisfies(h, contexts, k, BindArgument(arg, param, site), lossless)
    requires arg.Register? && OccursIn(contexts, arg, c) && param.Register? && IsBoundIn(contexts, k, c, site, param, d)
    ensures Same(h, Local(c, arg), Local(d, param))
  {
    hide OccursIn, IsBoundIn;
    assert IsReferenceTo(Local(c, arg), c, arg) && IsReferenceTo(Local(d, param), d, param);
    assert DemandsPair(contexts, k, BindArgument(arg, param, site), (Local(c, arg), Local(d, param)));
  }

  lemma EndingContext(g: CallGraph, k: int, callee: Function, e: CallEdge, cs: seq<Context>, c: Context,
                      ds: seq<Context>)
    returns (d: Context)
    requires WellFormedGraph(g) && callee in g && e in g[callee] && c in cs
    requires ContextsOf(g, e.caller, k, cs) && ContextsOf(g, callee, k, ds)
    ensures d in ds && EndsIn(c.Sites() + [e.site], d.Sites()) && FirstMatch(k, c, e.site, ds, d)
    ensures forall x <- ds | EndsIn(c.Sites() + [e.site], x.Sites()) :: x == d
  {
    var whole := c.Sites() + [e.site];
    CallBinding.MatchIsOwnContext(g, callee, e, k, cs, c, ds);
    d :| d in ds && d.Sites() == LastK(k, whole);
    LastKEnds(k, whole);
    forall x <- ds | EndsIn(whole, x.Sites()) ensures x == d {
      EndingIsLastK(g, k, callee, e, cs, c, ds, x);
      OneContextPerString(g, callee, k, ds, d);
    }
  }

  lemma EndingIsLastK(g: CallGraph, k: int, callee: Function, e: CallEdge, cs: seq<Context>, c: Context,
                      ds: seq<Context>, x: Context)
    requires WellFormedGraph(g) && callee in g && e in g[callee] && c in cs && x in ds
    requires ContextsOf(g, e.caller, k, cs) && ContextsOf(g, callee, k, ds)
    requires EndsIn(c.Sites() + [e.site], x.Sites())
    ensures x.Sites() == LastK(k, c.Sites() + [e.site])
  {
    EndingAgrees(k, c.Sites() + [e.site], x.Sites());
    assert IsCallString(g, e.caller, k, c.Sites()) && IsCallString(g, callee, k, x.Sites());
    hide EndsIn, ContextsOf, KEqual, LastK;
    UniqueMatch(g, callee, e, k, c.Sites());
  }

  ghost predicate EndsIn(s: seq<Site>, end: seq<Site>) {
    |end| <= |s| && s[|s| - |end|..] == end
  }

  lemma LastKEnds(k: int, s: seq<Site>)
    ensures EndsIn(s, LastK(k, s))
  {
  }

  lemma EndingAgrees(k: int, s: seq<Site>, end: seq<Site>)
    requires EndsIn(s, end)
    ensures KEqual(k, s, end)
  {
    forall i | 0 <= i < k && i < |s| && i < |end| ensures FromEnd(s, i) == FromEnd(end, i) {
      assert s[|s| - |end|..][|end| - i - 1] == s[|s| - i - 1];
    }
  }

  lemma OneContextPerString(g: CallGraph, fn: Function, k: int, cs: seq<Context>, d: Context)
    requires WellFormedGraph(g) && ContextsOf(g, fn, k, cs) && d in cs
    ensures forall x <- cs | x.Sites() == d.Sites() :: x == d
  {
    hide IsCallString, WellFormedGraph;
  }

  lemma FirstIsBound(contexts: ContextMap, k: int, c: Context, site: Site, param: Value, d: Context)
    requires param.Register? && param.parent.Some? && param.parent.value in contexts
    requires FirstMatch(k, c, site, contexts[param.parent.value], d)
    ensures IsBoundIn(contexts, k, c, site, param, d)
  {
    forall x: Context ensures KEqual(k, c.Sites() + [site], x.Sites()) <==> Agree(k, c.Sites() + [site], x.Sites()) {
      AgreeIff(k, c.Sites() + [site], x.Sites());
    }
    hide KEqual, Agree;
  }
}
