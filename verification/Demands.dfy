/** What each instruction demands of the heap, said of the contexts of functions and the attributes of values; and that
    this is what the visitor asks for (internal/pkg/earpointer/analysis.go). */
module Demands {
  import opened References
  import opened AbstractHeap
  import opened CallStrings
  import opened Congruence
  import opened Visitor

  type ContextMap = map<Function, seq<Context>>

  // ---- values and their contexts ----

  /** The contexts of a value: those of its function; only the empty one for a global, a value without a function, or
      one of a function that has no contexts. */
  ghost predicate OccursIn(contexts: ContextMap, v: Value, c: Context) {
    match v
    case GlobalVariable(_, _, _) => c == EmptyContext
    case Register(_, _, parent, _, _) =>
      if parent.Some? && parent.value in contexts then c in contexts[parent.value] else c == EmptyContext
  }

  /** A local is a reference for each context, a global one for all. */
  ghost predicate IsReferenceTo(r: Reference, c: Context, v: Value) {
    if v.GlobalVariable? then r == Global(v) else r == Local(c, v)
  }

  ghost predicate MayAlias(v: Value) {
    match v
    case GlobalVariable(_, _, shareable) => shareable
    case Register(_, _, _, shareable, local) => shareable && local
  }

  lemma ContextsAreThose(vis: Visitor, v: Value, c: Context)
    ensures c in vis.GetContexts(v) <==> OccursIn(vis.contexts, v, c)
  {
  }

  lemma ReferenceIsThat(c: Context, v: Value, r: Reference)
    ensures r == MakeReference(c, v) <==> IsReferenceTo(r, c, v)
  {
  }

  // ---- binding arguments ----

  /** The last k sites agree, as far as both lists go. */
  ghost predicate Agree(k: int, s: seq<Site>, s': seq<Site>) {
    forall x, y | 0 <= x < |s| && 0 <= y < |s'| && |s| - x == |s'| - y <= k :: s[x] == s'[y]
  }

  /** d is the context in which a parameter is bound when a call at the site comes from context c: the first of its
      function that agrees, or the empty context if it has no other. */
  ghost predicate IsBoundIn(contexts: ContextMap, k: int, c: Context, site: Site, param: Value, d: Context) {
    if param.Register? && param.parent.Some? && param.parent.value in contexts then
      var ds := contexts[param.parent.value];
      exists j | 0 <= j < |ds| :: ds[j] == d && Agree(k, c.Sites() + [site], d.Sites())
        && forall i | 0 <= i < j :: !Agree(k, c.Sites() + [site], ds[i].Sites())
    else
      d == EmptyContext
  }

  lemma AgreeIff(k: int, s: seq<Site>, s': seq<Site>)
    ensures KEqual(k, s, s') <==> Agree(k, s, s')
  {
    if KEqual(k, s, s') {
      forall x, y | 0 <= x < |s| && 0 <= y < |s'| && |s| - x == |s'| - y <= k ensures s[x] == s'[y] {
        assert FromEnd(s, |s| - 1 - x) == FromEnd(s', |s| - 1 - x);
      }
    }
    if Agree(k, s, s') {
      forall i | 0 <= i < k && i < |s| && i < |s'| ensures FromEnd(s, i) == FromEnd(s', i) {
        assert s[|s| - i - 1] == s'[|s'| - i - 1];
      }
    }
  }

  lemma BoundIff(vis: Visitor, c: Context, site: Site, param: Value, d: Context)
    ensures d in vis.GetContexts(param) && FirstMatch(vis.contextK, c, site, vis.GetContexts(param), d) <==>
            IsBoundIn(vis.contexts, vis.contextK, c, site, param, d)
  {
    hide KEqual, Agree;
    forall x: Context
      ensures KEqual(vis.contextK, c.Sites() + [site], x.Sites()) <==>
              Agree(vis.contextK, c.Sites() + [site], x.Sites())
    {
      AgreeIff(vis.contextK, c.Sites() + [site], x.Sites());
    }
    var ds := vis.GetContexts(param);
    if ds == [EmptyContext] {
      EmptyAgrees(vis.contextK, c.Sites() + [site]);
      assert ds[0] == EmptyContext;
    }
  }

  lemma EmptyAgrees(k: int, s: seq<Site>)
    ensures Agree(k, s, EmptyContext.Sites())
  {
  }

  // ---- demands ----

  /** The references that an instruction wants in one class. */
  ghost predicate DemandsPair(contexts: ContextMap, k: int, i: Instruction, p: Pair) {
    match i
    case Declare(v) =>
      p.0 == p.1 && exists c :: OccursIn(contexts, v, c) && IsReferenceTo(p.0, c, v)
    case UnifyValues(u, v) =>
      && MayAlias(u) && MayAlias(v)
      && exists c :: OccursIn(contexts, u, c) && IsReferenceTo(p.0, c, u) && IsReferenceTo(p.1, c, v)
    case BindArgument(arg, param, site) =>
      exists c, d :: OccursIn(contexts, arg, c) && IsBoundIn(contexts, k, c, site, param, d)
        && IsReferenceTo(p.0, c, arg) && IsReferenceTo(p.1, d, param)
    case AccessHeap(_, _, _) => false
    case LoadStore(_, _) => false
    case TakeFieldAddress(_, _, _) => false
  }

  /** The field edges that an instruction wants; ValueAt(o) is what an address o points to. */
  ghost predicate DemandsEdge(contexts: ContextMap, i: Instruction, e: Edge) {
    match i
    case AccessHeap(data, base, fd) =>
      data.shareable && exists c :: OccursIn(contexts, base, c) && IsEdgeIn(e, c, base, fd, data)
    case LoadStore(addr, value) =>
      && addr.shareable && value.shareable
      && exists c :: OccursIn(contexts, addr, c) && IsEdgeIn(e, c, addr, Field("->", None), value)
    case TakeFieldAddress(obj, fd, addr) =>
      exists c, o, t :: OccursIn(contexts, addr, c) && IsReferenceTo(o, c, obj) && IsReferenceTo(t, c, addr)
        && (e == Edge(o, Field("->", None), Synthetic(ValueOf, o)) || e == Edge(Synthetic(ValueOf, o), fd, t))
    case Declare(_) => false
    case UnifyValues(_, _) => false
    case BindArgument(_, _, _) => false
  }

  ghost predicate IsEdgeIn(e: Edge, c: Context, obj: Value, fd: Field, target: Value) {
    IsReferenceTo(e.obj, c, obj) && e.field == fd && IsReferenceTo(e.target, c, target)
  }

  lemma PairsAreDemanded(vis: Visitor, i: Instruction, p: Pair)
    ensures p in Constraint(vis, i).pairs <==> DemandsPair(vis.contexts, vis.contextK, i, p)
  {
    hide FirstMatch, IsBoundIn;
    match i {
      case Declare(v) =>
        forall c ensures c in vis.GetContexts(v) <==> OccursIn(vis.contexts, v, c) {
          ContextsAreThose(vis, v, c);
        }
      case UnifyValues(u, v) =>
        forall c ensures c in vis.GetContexts(u) <==> OccursIn(vis.contexts, u, c) {
          ContextsAreThose(vis, u, c);
        }
      case BindArgument(arg, param, site) =>
        BindingsAreDemanded(vis, arg, param, site, p);
      case _ =>
    }
  }

  lemma BindingsAreDemanded(vis: Visitor, arg: Value, param: Value, site: Site, p: Pair)
    ensures p in CallPairs(vis.contextK, arg, vis.GetContexts(arg), param, vis.GetContexts(param), site) <==>
            DemandsPair(vis.contexts, vis.contextK, BindArgument(arg, param, site), p)
  {
    hide FirstMatch, IsBoundIn, OccursIn;
    forall c ensures c in vis.GetContexts(arg) <==> OccursIn(vis.contexts, arg, c) {
      ContextsAreThose(vis, arg, c);
    }
    forall c, d
      ensures (d in vis.GetContexts(param) && FirstMatch(vis.contextK, c, site, vis.GetContexts(param), d)) <==>
              IsBoundIn(vis.contexts, vis.contextK, c, site, param, d)
    {
      BoundIff(vis, c, site, param, d);
    }
  }

  lemma EdgesAreDemanded(vis: Visitor, i: Instruction, e: Edge)
    ensures e in Constraint(vis, i).edges <==> DemandsEdge(vis.contexts, i, e)
  {
    match i {
      case AccessHeap(_, base, _) =>
        forall c ensures c in vis.GetContexts(base) <==> OccursIn(vis.contexts, base, c) {
          ContextsAreThose(vis, base, c);
        }
      case LoadStore(addr, _) =>
        forall c ensures c in vis.GetContexts(addr) <==> OccursIn(vis.contexts, addr, c) {
          ContextsAreThose(vis, addr, c);
        }
      case TakeFieldAddress(obj, fd, addr) =>
        AddressesAreDemanded(vis, obj, fd, addr, e);
      case _ =>
    }
  }

  lemma AddressesAreDemanded(vis: Visitor, obj: Value, fd: Field, addr: Value, e: Edge)
    ensures e in AllAddressEdges(vis.GetContexts(addr), obj, fd, addr) <==>
            DemandsEdge(vis.contexts, TakeFieldAddress(obj, fd, addr), e)
  {
    forall c ensures c in vis.GetContexts(addr) <==> OccursIn(vis.contexts, addr, c) {
      ContextsAreThose(vis, addr, c);
    }
    hide OccursIn;
    if e in AllAddressEdges(vis.GetContexts(addr), obj, fd, addr) {
      var c :| c in vis.GetContexts(addr) && e in EdgesThrough(ValueAt(MakeReference(c, obj)), c, obj, fd, addr);
      var o, t := MakeReference(c, obj), MakeReference(c, addr);
      assert OccursIn(vis.contexts, addr, c) && IsReferenceTo(o, c, obj) && IsReferenceTo(t, c, addr);
    }
    if DemandsEdge(vis.contexts, TakeFieldAddress(obj, fd, addr), e) {
      var c, o, t :| OccursIn(vis.contexts, addr, c) && IsReferenceTo(o, c, obj) && IsReferenceTo(t, c, addr)
        && (e == Edge(o, Field("->", None), Synthetic(ValueOf, o)) || e == Edge(Synthetic(ValueOf, o), fd, t));
      assert e in EdgesThrough(ValueAt(MakeReference(c, obj)), c, obj, fd, addr);
    }
  }
}
