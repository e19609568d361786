/** The visitor's constraint helpers (internal/pkg/earpointer/analysis.go): the steps that drive the state. */
module Visitor {
  import opened References
  import opened UnionFind
  import opened AbstractHeap
  import opened EarState
  import opened CallStrings
  import Graphs
  import opened Congruence

  // ---- synthesised pointees ----

  /** No pointee will be synthesised for r again: it is absorbed, or its class points somewhere. */
  ghost predicate Settled(h: Heap, r: Reference)
    requires WellFormed(h)
  {
    !IsHead(h.parents, r) || DIRECT_POINT_TO_FIELD in Fields(h, r)
  }

  ghost predicate SettledIfPointee(h: Heap, s: Reference)
    requires WellFormed(h)
  {
    s.Synthetic? && s.kind.ValueOf? ==> Settled(h, s.ref)
  }

  /** Every synthesised pointee in sight belongs to a settled reference. */
  ghost predicate PointeesSettled(h: Heap)
    requires WellFormed(h)
  {
    forall s <- Universe(h) :: SettledIfPointee(h, s)
  }

  /** The reference holding what r points to, when no other one is known. */
  function ValueAt(r: Reference): Reference {
    Synthetic(ValueOf, r)
  }

  /** What getPointee answers for an address. */
  ghost function PointeeOf(h: Heap, addr: Reference): Reference
    requires WellFormed(h)
  {
    if DIRECT_POINT_TO_FIELD in Fields(h, addr) then Fields(h, addr)[DIRECT_POINT_TO_FIELD]
    else ValueAt(Root(h.parents, addr))
  }

  /** A pointee that getPointee synthesises for a representative without "->" is new. */
  lemma PointeeIsFresh(h: Heap, r: Reference)
    requires WellFormed(h) && PointeesSettled(h)
    requires IsHead(h.parents, r) && DIRECT_POINT_TO_FIELD !in Fields(h, r)
    ensures ValueAt(r) !in Universe(h)
  {
    var s := ValueAt(r);
    assert s in Universe(h) ==> SettledIfPointee(h, s);
  }

  lemma SettledSurvives(h: Heap, P: set<Pair>, N: set<Edge>, h': Heap, lossless: bool, r: Reference)
    requires Step(h, P, N, h', lossless) && Settled(h, r)
    ensures Settled(h', r)
  {
    if IsHead(h'.parents, r) {
      assert IsHead(h.parents, r);
      assert HasField(h, Edge(r, DIRECT_POINT_TO_FIELD, r));
      EdgeSurvives(h, P, N, h', lossless, Edge(r, DIRECT_POINT_TO_FIELD, r));
    }
  }

  /** Steps that mention no unsettled pointee keep all of them settled. */
  lemma PointeesStaySettled(h: Heap, P: set<Pair>, N: set<Edge>, h': Heap, lossless: bool)
    requires Step(h, P, N, h', lossless) && PointeesSettled(h)
    requires forall s <- Mentioned(P, N) :: SettledIfPointee(h', s)
    ensures PointeesSettled(h')
  {
    forall s <- Universe(h') ensures SettledIfPointee(h', s) {
      if s in Universe(h) && s.Synthetic? && s.kind.ValueOf? {
        assert SettledIfPointee(h, s);
        SettledSurvives(h, P, N, h', lossless, s.ref);
      }
    }
  }

  // ---- the requests of the helpers ----

  /** Equations between the references of u and v, context by context. */
  ghost function LocalPairs(contexts: seq<Context>, u: Value, v: Value): set<Pair> {
    set c | c in contexts :: (MakeReference(c, u), MakeReference(c, v))
  }

  /** Edges from the references of obj to those of target, context by context. */
  ghost function ContextEdges(contexts: seq<Context>, obj: Value, f: Field, target: Value): set<Edge> {
    set c | c in contexts :: Edge(MakeReference(c, obj), f, MakeReference(c, target))
  }

  /** d is the first context in the list that matches c extended by the site. */
  ghost predicate FirstMatch(k: int, c: Context, site: Site, candidates: seq<Context>, d: Context) {
    exists j | 0 <= j < |candidates| :: candidates[j] == d
      && KEqual(k, c.Sites() + [site], d.Sites())
      && forall i | 0 <= i < j :: !KEqual(k, c.Sites() + [site], candidates[i].Sites())
  }

  ghost function CallPairs(k: int, arg: Value, argContexts: seq<Context>, param: Value, paramContexts: seq<Context>,
                           site: Site): set<Pair> {
    set c, d | c in argContexts && d in paramContexts && FirstMatch(k, c, site, paramContexts, d) ::
      (MakeReference(c, arg), MakeReference(d, param))
  }

  lemma AddLocalPair(contexts: seq<Context>, i: nat, u: Value, v: Value)
    requires i < |contexts|
    ensures LocalPairs(contexts[..i + 1], u, v) ==
            LocalPairs(contexts[..i], u, v) + {(MakeReference(contexts[i], u), MakeReference(contexts[i], v))}
    ensures LocalPairs(contexts[..i + 1], u, v) <= LocalPairs(contexts, u, v)
  {
    assert contexts[..i + 1] == contexts[..i] + [contexts[i]];
  }

  lemma AddFieldEdge(contexts: seq<Context>, i: nat, obj: Value, f: Field, target: Value)
    requires i < |contexts|
    ensures ContextEdges(contexts[..i + 1], obj, f, target) ==
            ContextEdges(contexts[..i], obj, f, target)
            + {Edge(MakeReference(contexts[i], obj), f, MakeReference(contexts[i], target))}
    ensures ContextEdges(contexts[..i + 1], obj, f, target) <= ContextEdges(contexts, obj, f, target)
  {
    assert contexts[..i + 1] == contexts[..i] + [contexts[i]];
  }

  lemma NoLocalPairs(u: Value, v: Value)
    ensures LocalPairs([], u, v) == {}
  {
  }

  lemma NoContextEdges(obj: Value, f: Field, target: Value)
    ensures ContextEdges([], obj, f, target) == {}
  {
  }

  class Visitor {
    const state: State
    const contextK: int
    var contexts: map<Function, seq<Context>>

    constructor (k: int)
      ensures fresh(state) && Valid() && contextK == k && contexts == map[]
      ensures state.Snapshot() == EMPTY_HEAP && state.merges == []
    {
      contextK, contexts := k, map[];
      state := new State();
    }

    ghost predicate Valid()
      reads this, state
    {
      state.Valid() && PointeesSettled(state.Snapshot())
    }

    /** The contexts of the function a value belongs to; the empty one for globals and unknown functions. */
    function GetContexts(v: Value): seq<Context>
      reads this
    {
      if v.Register? && v.parent.Some? && v.parent.value in contexts then contexts[v.parent.value] else [EmptyContext]
    }

    /** Gives every function of the graph its call strings. */
    method InitContexts(g: CallGraph)
      modifies this
      ensures contexts.Keys == g.Keys
      ensures forall fn <- g :: ContextsOf(g, fn, contextK, contexts[fn])
    {
      hide ContextsOf;
      contexts := map[];
      var rest := g.Keys;
      while rest != {}
        invariant rest <= g.Keys && contexts.Keys == g.Keys - rest
        invariant forall fn <- contexts :: ContextsOf(g, fn, contextK, contexts[fn])
        decreases rest
      {
        var fn :| fn in rest;
        var strings := CollectContext(g, fn, contextK);
        HandlesHaveContexts(g, fn, contextK, strings);
        contexts := contexts[fn := Handles(g, fn, contextK, strings)];
        rest := rest - {fn};
      }
    }

    /** Unify for references to program values. */
    method UnifyPlain(a: Reference, b: Reference)
      requires Valid() && !a.Synthetic? && !b.Synthetic?
      modifies state
      ensures Valid() && (state.Lossless() ==> old(state.Lossless()))
      ensures Step(old(state.Snapshot()), {(a, b)}, {}, state.Snapshot(), state.Lossless())
      ensures old(state.Lossless()) && Separable(old(state.Snapshot()), {(a, b)}, {}) ==> state.Lossless()
    {
      hide Step, PointeesSettled, Unified, Separable, ShareNoField;
      ghost var h := state.Snapshot();
      state.Unify(a, b);
      PairStaysSettled(h, a, b, state.Snapshot(), state.Lossless());
    }

    /** Unifies two values in all contexts of the first. */
    method UnifyLocals(u: Value, v: Value)
      requires Valid()
      modifies state
      ensures Valid() && (state.Lossless() ==> old(state.Lossless()))
      ensures MayShareObject(u) && MayShareObject(v) ==>
                Step(old(state.Snapshot()), LocalPairs(GetContexts(u), u, v), {}, state.Snapshot(), state.Lossless())
      ensures MayShareObject(u) && MayShareObject(v) && old(state.Lossless()) ==>
                Separable(old(state.Snapshot()), LocalPairs(GetContexts(u), u, v), {}) ==> state.Lossless()
      ensures !(MayShareObject(u) && MayShareObject(v)) ==>
                state.Snapshot() == old(state.Snapshot()) && state.merges == old(state.merges)
    {
      hide Step, PointeesSettled, WellFormed, Unified, LocalPairs, MakeReference, Separable;
      if !MayShareObject(u) || !MayShareObject(v) {
        return;
      }
      ghost var h := state.Snapshot();
      var cs := GetContexts(u);
      EmptyStep(h, state.Lossless());
      NoLocalPairs(u, v);
      for i := 0 to |cs|
        invariant Valid() && (state.Lossless() ==> old(state.Lossless()))
        invariant Step(h, LocalPairs(cs[..i], u, v), {}, state.Snapshot(), state.Lossless())
        invariant old(state.Lossless()) && Separable(h, LocalPairs(cs, u, v), {}) ==> state.Lossless()
      {
        ghost var now, kept := state.Snapshot(), state.Lossless();
        var a, b := MakeReference(cs[i], u), MakeReference(cs[i], v);
        AddLocalPair(cs, i, u, v);
        SeparableNext(h, LocalPairs(cs[..i], u, v), {}, now, kept, {(a, b)}, {}, LocalPairs(cs, u, v), {});
        UnifyPlain(a, b);
        EquationsThen(h, LocalPairs(cs[..i], u, v), now, kept, {(a, b)}, state.Snapshot(), state.Lossless());
      }
      assert cs[..|cs|] == cs;
    }

    /** The last part of unifyField, unifyFieldAddress and processAddressToValue: stores the field under the
        representative objr of obj, or unifies what it holds with named, a name of t's class. */
    method AddOrUnify(ghost obj: Reference, objr: Reference, fd: Field, named: Reference, ghost t: Reference)
      requires Valid() && obj in state.parents && objr == Root(state.parents, obj)
      requires Same(state.Snapshot(), named, t) && (named == t || named in state.parents)
      requires SettledIfPointee(state.Snapshot(), obj) && SettledIfPointee(state.Snapshot(), t)
      modifies state
      ensures Valid() && (state.Lossless() ==> old(state.Lossless()))
      ensures Step(old(state.Snapshot()), {}, {Edge(obj, fd, t)}, state.Snapshot(), state.Lossless())
      ensures old(state.Lossless()) && Separable(old(state.Snapshot()), {}, {Edge(obj, fd, t)}) ==> state.Lossless()
      ensures old(state.Lossless()) && TargetsShareNoField(old(state.Snapshot()), obj, fd, t) ==> state.Lossless()
    {
      hide Step, PointeesSettled, SettledIfPointee, Unified, Separable, ShareNoField;
      ghost var h := state.Snapshot();
      var fmap := state.partitions[objr].fieldRefs;
      if fd in fmap {
        FieldUnifySeparable(h, obj, fd, t, named);
        SharesAsNamed(h, fmap[fd], t, named);
        state.Unify(fmap[fd], named);
        FieldUnifyStep(h, obj, fd, t, named, state.Snapshot(), state.Lossless());
      } else {
        WithFieldStep(h, obj, fd, t, named);
        StoreKeepsCount(h, objr, fd, named);
        state.partitions := state.partitions[objr := state.partitions[objr].(fieldRefs := fmap[fd := named])];
        StepWeaken(h, {}, {Edge(obj, fd, t)}, state.Snapshot(), true, state.Lossless());
      }
      EdgeStaysSettled(h, Edge(obj, fd, t), state.Snapshot(), state.Lossless());
    }

    /** The constraint obj.fd = target in one context. */
    method UnifyField(context: Context, obj: Value, fd: Field, target: Value)
      requires Valid()
      modifies state
      ensures Valid() && (state.Lossless() ==> old(state.Lossless()))
      ensures target.shareable ==>
                Step(old(state.Snapshot()), {}, {Edge(MakeReference(context, obj), fd, MakeReference(context, target))},
                     state.Snapshot(), state.Lossless())
      ensures target.shareable && old(state.Lossless()) ==>
                var o, t := MakeReference(context, obj), MakeReference(context, target);
                && (Separable(old(state.Snapshot()), {}, {Edge(o, fd, t)}) ==> state.Lossless())
                && (TargetsShareNoField(old(state.Snapshot()), o, fd, t) ==> state.Lossless())
      ensures !target.shareable ==> state.Snapshot() == old(state.Snapshot()) && state.merges == old(state.merges)
    {
      hide Step, PointeesSettled, Separable, TargetsShareNoField;
      if !target.shareable {
        return;
      }
      ghost var h := state.Snapshot();
      var o, t := MakeReference(context, obj), MakeReference(context, target);
      BothEntered(h, o, t);
      EdgeSeparableEntered(h, o, fd, t);
      var objr := state.Representative(o);
      var tr := state.Insert(t);
      AddOrUnify(o, objr, fd, tr, t);
      EdgeAfterEntering(h, o, fd, t, state.Snapshot(), state.Lossless());
    }

    /** A load or store between data and base[fd], in all contexts of base. */
    method ProcessHeapAccess(data: Value, base: Value, fd: Field)
      requires Valid()
      modifies state
      ensures Valid() && (state.Lossless() ==> old(state.Lossless()))
      ensures data.shareable ==>
                Step(old(state.Snapshot()), {}, ContextEdges(GetContexts(base), base, fd, data), state.Snapshot(),
                     state.Lossless())
      ensures data.shareable && old(state.Lossless()) ==>
                var N := ContextEdges(GetContexts(base), base, fd, data);
                Separable(old(state.Snapshot()), {}, N) ==> state.Lossless()
      ensures !data.shareable ==> state.Snapshot() == old(state.Snapshot()) && state.merges == old(state.merges)
    {
      hide Step, PointeesSettled, WellFormed, ContextEdges, Separable, TargetsShareNoField;
      if !data.shareable {
        return;
      }
      ghost var h := state.Snapshot();
      var cs := GetContexts(base);
      EmptyStep(h, state.Lossless());
      NoContextEdges(base, fd, data);
      for i := 0 to |cs|
        invariant Valid() && (state.Lossless() ==> old(state.Lossless()))
        invariant Step(h, {}, ContextEdges(cs[..i], base, fd, data), state.Snapshot(), state.Lossless())
        invariant old(state.Lossless()) && Separable(h, {}, ContextEdges(cs, base, fd, data)) ==> state.Lossless()
      {
        ghost var now, kept := state.Snapshot(), state.Lossless();
        ghost var e := Edge(MakeReference(cs[i], base), fd, MakeReference(cs[i], data));
        AddFieldEdge(cs, i, base, fd, data);
        SeparableNext(h, {}, ContextEdges(cs[..i], base, fd, data), now, kept, {}, {e}, {},
                      ContextEdges(cs, base, fd, data));
        UnifyField(cs[i], base, fd, data);
        EdgesThen(h, ContextEdges(cs[..i], base, fd, data), now, kept, {e}, state.Snapshot(), state.Lossless());
      }
      assert cs[..|cs|] == cs;
    }

    /** The operators & and *: makes the address point to the value, in all contexts of the address. */
    method ProcessAddressToValue(addr: Value, value: Value)
      requires Valid()
      modifies state
      ensures Valid() && (state.Lossless() ==> old(state.Lossless()))
      ensures addr.shareable && value.shareable ==>
                Step(old(state.Snapshot()), {}, ContextEdges(GetContexts(addr), addr, DIRECT_POINT_TO_FIELD, value),
                     state.Snapshot(), state.Lossless())
      ensures addr.shareable && value.shareable && old(state.Lossless()) ==>
                var N := ContextEdges(GetContexts(addr), addr, DIRECT_POINT_TO_FIELD, value);
                Separable(old(state.Snapshot()), {}, N) ==> state.Lossless()
      ensures !(addr.shareable && value.shareable) ==>
                state.Snapshot() == old(state.Snapshot()) && state.merges == old(state.merges)
    {
      hide Step, PointeesSettled, WellFormed, ContextEdges, Separable;
      if !addr.shareable || !value.shareable {
        return;
      }
      ghost var h := state.Snapshot();
      var cs := GetContexts(addr);
      EmptyStep(h, state.Lossless());
      NoContextEdges(addr, DIRECT_POINT_TO_FIELD, value);
      for i := 0 to |cs|
        invariant Valid() && (state.Lossless() ==> old(state.Lossless()))
        invariant Step(h, {}, ContextEdges(cs[..i], addr, DIRECT_POINT_TO_FIELD, value), state.Snapshot(),
                       state.Lossless())
        invariant old(state.Lossless()) && Separable(h, {}, ContextEdges(cs, addr, DIRECT_POINT_TO_FIELD, value)) ==>
                    state.Lossless()
      {
        ghost var now, kept := state.Snapshot(), state.Lossless();
        ghost var N := ContextEdges(cs[..i], addr, DIRECT_POINT_TO_FIELD, value);
        ghost var e := Edge(MakeReference(cs[i], addr), DIRECT_POINT_TO_FIELD, MakeReference(cs[i], value));
        AddFieldEdge(cs, i, addr, DIRECT_POINT_TO_FIELD, value);
        SeparableNext(h, {}, N, now, kept, {}, {e}, {}, ContextEdges(cs, addr, DIRECT_POINT_TO_FIELD, value));
        PointTo(cs[i], addr, value);
        EdgesThen(h, N, now, kept, {e}, state.Snapshot(), state.Lossless());
      }
      assert cs[..|cs|] == cs;
    }

    /** One iteration of processAddressToValue. */
    method PointTo(context: Context, addr: Value, value: Value)
      requires Valid()
      modifies state
      ensures Valid() && (state.Lossless() ==> old(state.Lossless()))
      ensures Step(old(state.Snapshot()), {},
                   {Edge(MakeReference(context, addr), DIRECT_POINT_TO_FIELD, MakeReference(context, value))},
                   state.Snapshot(), state.Lossless())
      ensures old(state.Lossless()) ==>
                var e := Edge(MakeReference(context, addr), DIRECT_POINT_TO_FIELD, MakeReference(context, value));
                Separable(old(state.Snapshot()), {}, {e}) ==> state.Lossless()
    {
      hide Step, PointeesSettled, Separable, TargetsShareNoField;
      ghost var h := state.Snapshot();
      var a, v := MakeReference(context, addr), MakeReference(context, value);
      BothEntered(h, a, v);
      EdgeSeparableEntered(h, a, DIRECT_POINT_TO_FIELD, v);
      var caddr := state.Insert(a);
      var cvalue := state.Insert(v);
      EnteredRepresentative(state.Snapshot(), caddr);
      var rep := state.Representative(caddr);
      AddOrUnify(a, rep, DIRECT_POINT_TO_FIELD, cvalue, v);
      EdgeAfterEntering(h, a, DIRECT_POINT_TO_FIELD, v, state.Snapshot(), state.Lossless());
    }

    /** The reference holding *addr; synthesised, and then new to the state, when addr points nowhere yet. A synthetic
        address is one that the state holds. */
    method GetPointee(addr: Reference) returns (p: Reference)
      requires Valid() && (addr.Synthetic? ==> addr in Universe(state.Snapshot()))
      modifies state
      ensures Valid() && state.merges == old(state.merges)
      ensures p in Universe(state.Snapshot())
      ensures Step(old(state.Snapshot()), {}, {Edge(addr, DIRECT_POINT_TO_FIELD, p)}, state.Snapshot(), true)
      ensures p == PointeeOf(old(state.Snapshot()), addr)
      ensures DIRECT_POINT_TO_FIELD !in Fields(old(state.Snapshot()), addr) ==> p !in Universe(old(state.Snapshot()))
    {
      hide Step, PointeesSettled, SettledIfPointee, Universe, Compress, IsForest;
      ghost var h := state.Snapshot();
      AddressIsSettled(h, addr);
      EnteredHeap(h, addr);
      var arep := state.Representative(addr);
      var fmap := state.partitions[arep].fieldRefs;
      if DIRECT_POINT_TO_FIELD in fmap {
        p := fmap[DIRECT_POINT_TO_FIELD];
        KnownPointee(h, addr);
        return;
      }
      p := ValueAt(arep);
      AddressIsHead(h, addr);
      PointeeIsFresh(h, arep);
      var _ := state.Insert(p);
      assert state.Snapshot() == EnteredBoth(h, addr, p);
      var info := state.partitions[arep];
      state.partitions := state.partitions[arep := info.(fieldRefs := info.fieldRefs[DIRECT_POINT_TO_FIELD := p])];
      NewPointee(h, addr, p, state.Snapshot());
    }

    /** The constraint &obj.field = target in one context: target becomes the field of what obj points to. */
    method UnifyFieldAddress(context: Context, obj: Value, field: Field, target: Value)
      requires Valid()
      modifies state
      ensures Valid() && (state.Lossless() ==> old(state.Lossless()))
      ensures Step(old(state.Snapshot()), {}, AddressEdges(old(state.Snapshot()), context, obj, field, target),
                   state.Snapshot(), state.Lossless())
      ensures old(state.Lossless()) ==>
                var N := AddressEdges(old(state.Snapshot()), context, obj, field, target);
                Separable(old(state.Snapshot()), {}, N) ==> state.Lossless()
    {
      hide Step, PointeesSettled, Separable, TargetsShareNoField;
      ghost var h := state.Snapshot();
      var o, tv := MakeReference(context, obj), MakeReference(context, target);
      var v := GetPointee(o);
      ghost var h1 := state.Snapshot();
      PointeeSettled(h1, v);
      EnteredHeap(h1, v);
      ghost var toPointee, toTarget := {Edge(o, DIRECT_POINT_TO_FIELD, v)}, {Edge(v, field, tv)};
      SeparableNext(h, {}, toPointee, h1, true, {}, toTarget, {}, AddressEdges(h, context, obj, field, target));
      EdgeSeparableLookup(h1, v, field, tv);
      var rep := state.Representative(v);
      EnteredStaysSettled(h1, v, v);
      AddOrUnify(v, rep, field, tv, tv);
      EdgeAfterLookup(h1, v, field, tv, state.Snapshot(), state.Lossless());
      StepWeaken(h, {}, toPointee, h1, true, state.Lossless());
      EdgesThen(h, toPointee, h1, state.Lossless(), toTarget, state.Snapshot(), state.Lossless());
    }

    /** Unifies an argument with a parameter: each caller context with the first callee context that
        matches it extended by the call site. */
    method UnifyCallWithContexts(arg: Value, param: Value, callsite: Site)
      requires Valid()
      modifies state
      ensures Valid() && (state.Lossless() ==> old(state.Lossless()))
      ensures Step(old(state.Snapshot()),
                   CallPairs(contextK, arg, GetContexts(arg), param, GetContexts(param), callsite), {},
                   state.Snapshot(), state.Lossless())
      ensures old(state.Lossless()) ==>
                var P := CallPairs(contextK, arg, GetContexts(arg), param, GetContexts(param), callsite);
                Separable(old(state.Snapshot()), P, {}) ==> state.Lossless()
    {
      hide Step, PointeesSettled, WellFormed, FirstMatch, Unified, KEqual, CallPairs, Separable;
      ghost var h := state.Snapshot();
      var cs, ds := GetContexts(arg), GetContexts(param);
      EmptyStep(h, state.Lossless());
      NoCallPairs(contextK, arg, param, ds, callsite);
      for i := 0 to |cs|
        invariant Valid() && (state.Lossless() ==> old(state.Lossless()))
        invariant Step(h, CallPairs(contextK, arg, cs[..i], param, ds, callsite), {}, state.Snapshot(),
                       state.Lossless())
        invariant old(state.Lossless()) && Separable(h, CallPairs(contextK, arg, cs, param, ds, callsite), {}) ==>
                    state.Lossless()
      {
        ghost var now, kept := state.Snapshot(), state.Lossless();
        var argCxt := cs[i].Sites() + [callsite];
        var argRef := MakeReference(cs[i], arg);
        var j := 0;
        var matched := false;
        while j < |ds| && !matched
          invariant j <= |ds| && state.Snapshot() == now && state.Lossless() == kept && Valid()
          invariant forall x | 0 <= x < j - (if matched then 1 else 0) :: !KEqual(contextK, argCxt, ds[x].Sites())
          invariant matched ==> j > 0 && KEqual(contextK, argCxt, ds[j - 1].Sites())
        {
          matched := ContextKEqual(contextK, argCxt, ds[j].Sites());
          j := j + 1;
        }
        AddCallPair(contextK, arg, cs, i, param, ds, callsite, j, matched);
        if matched {
          var paramRef := MakeReference(ds[j - 1], param);
          SeparableNext(h, CallPairs(contextK, arg, cs[..i], param, ds, callsite), {}, now, kept,
                        {(argRef, paramRef)}, {}, CallPairs(contextK, arg, cs, param, ds, callsite), {});
          UnifyPlain(argRef, paramRef);
          EquationsThen(h, CallPairs(contextK, arg, cs[..i], param, ds, callsite), now, kept, {(argRef, paramRef)},
                        state.Snapshot(), state.Lossless());
        }
      }
      assert cs[..|cs|] == cs;
    }

    /** Inserts a value in all its contexts. */
    method InitLocal(v: Value)
      requires Valid()
      modifies state
      ensures Valid() && (state.Lossless() ==> old(state.Lossless()))
      ensures Step(old(state.Snapshot()), LocalPairs(GetContexts(v), v, v), {}, state.Snapshot(), state.Lossless())
      ensures state.merges == old(state.merges)
      ensures forall c <- GetContexts(v) :: MakeReference(c, v) in state.parents
    {
      hide Step, PointeesSettled, WellFormed, LocalPairs, Compress, IsForest;
      ghost var h := state.Snapshot();
      var cs := GetContexts(v);
      EmptyStep(h, state.Lossless());
      NoLocalPairs(v, v);
      for i := 0 to |cs|
        invariant Valid() && (state.Lossless() ==> old(state.Lossless()))
        invariant Step(h, LocalPairs(cs[..i], v, v), {}, state.Snapshot(), state.Lossless())
        invariant state.merges == old(state.merges)
        invariant forall j | 0 <= j < i :: MakeReference(cs[j], v) in state.parents
      {
        ghost var now, kept := state.Snapshot(), state.Lossless();
        var r := MakeReference(cs[i], v);
        EnteredStaysSettled(now, r, r);
        EnteredStep(now, r);
        StepWeaken(now, {(r, r)}, {}, Entered(now, r), true, kept);
        EnteredHolds(now, r);
        var _ := state.Insert(r);
        EquationsThen(h, LocalPairs(cs[..i], v, v), now, kept, {(r, r)}, state.Snapshot(), state.Lossless());
        AddLocalPair(cs, i, v, v);
      }
      assert cs[..|cs|] == cs;
    }

    /** visitFieldAddr: the constraint &obj.fd = addr in all contexts of addr; a run with a request for each of them. */
    method VisitFieldAddr(obj: Value, fd: Field, addr: Value)
      returns (ghost heaps: seq<Heap>, ghost requests: seq<Request>)
      requires Valid()
      modifies state
      ensures Valid() && (state.Lossless() ==> old(state.Lossless()))
      ensures TakesAddresses(GetContexts(addr), heaps, requests, obj, fd, addr) && heaps[0] == old(state.Snapshot())
      ensures Step(old(state.Snapshot()), {}, FieldEdges(requests), state.Snapshot(), state.Lossless())
      ensures old(state.Lossless()) && Separable(old(state.Snapshot()), {}, FieldEdges(requests)) ==> state.Lossless()
    {
      hide Step, PointeesSettled, WellFormed, Separable, FieldEdges, IsRun;
      ghost var h := state.Snapshot();
      var cs := GetContexts(addr);
      heaps, requests := [h], [];
      EmptyStep(h, state.Lossless());
      NoRun(h);
      NoRequests();
      assert TakesAddresses(cs[..0], heaps, requests, obj, fd, addr) by {
        NoRunFor(h);
      }
      for i := 0 to |cs|
        invariant Valid() && (state.Lossless() ==> old(state.Lossless()))
        invariant |heaps| == i + 1 && |requests| == i && heaps[0] == h && heaps[i] == state.Snapshot()
        invariant TakesAddresses(cs[..i], heaps, requests, obj, fd, addr)
        invariant Step(h, {}, FieldEdges(requests), state.Snapshot(), state.Lossless())
        invariant old(state.Lossless()) && Separable(h, {}, FieldEdges(requests)) ==> state.Lossless()
      {
        ghost var now, kept := state.Snapshot(), state.Lossless();
        ghost var M := AddressEdges(now, cs[i], obj, fd, addr);
        RequestsAdd(requests, Request({}, M));
        SeparableNext(h, {}, FieldEdges(requests), now, kept, {}, M, {}, FieldEdges(requests + [Request({}, M)]));
        SeparableSubset(h, {}, FieldEdges(requests + [Request({}, M)]), {}, FieldEdges(requests));
        UnifyFieldAddress(cs[i], obj, fd, addr);
        EdgesThen(h, FieldEdges(requests), now, kept, M, state.Snapshot(), state.Lossless());
        TakesOneMore(cs, heaps, requests, obj, fd, addr, state.Snapshot(), state.Lossless());
        heaps, requests := heaps + [state.Snapshot()], requests + [Request({}, M)];
      }
      assert cs[..|cs|] == cs;
    }

    method VisitInstruction(i: Instruction) returns (ghost q: Request)
      requires Valid()
      modifies state
      ensures Valid() && (state.Lossless() ==> old(state.Lossless()))
      ensures RequestOf(this, i, old(state.Snapshot()), q) && IsDeclared(this, i, state.Snapshot())
      ensures Step(old(state.Snapshot()), q.pairs, q.edges, state.Snapshot(), state.Lossless())
      ensures old(state.Lossless()) && Separable(old(state.Snapshot()), q.pairs, q.edges) ==> state.Lossless()
    {
      hide Step, PointeesSettled, WellFormed, ContextEdges, LocalPairs, CallPairs, Separable, TakesAddresses;
      hide FieldEdges;
      q := Constraint(this, i);
      match i {
      case Declare(v) =>
        InitLocal(v);
      case UnifyValues(u, v) =>
        UnifyLocals(u, v);
      case AccessHeap(data, base, fd) =>
        ProcessHeapAccess(data, base, fd);
      case LoadStore(addr, value) =>
        ProcessAddressToValue(addr, value);
      case TakeFieldAddress(obj, fd, addr) =>
        ghost var heaps, requests := VisitFieldAddr(obj, fd, addr);
        q := Request({}, FieldEdges(requests));
      case BindArgument(arg, param, site) =>
        UnifyCallWithContexts(arg, param, site);
      }
      EmptyStep(state.Snapshot(), state.Lossless());
    }

    /** The traversal of all instructions: a run of the state machine that makes exactly their requests, and loses
        nothing if some possible partition after all of them keeps the targets of different fields apart. */
    method VisitAll(instructions: seq<Instruction>) returns (ghost heaps: seq<Heap>, ghost requests: seq<Request>)
      requires Valid() && state.Lossless()
      modifies state
      ensures Valid() && |heaps| - 1 == |requests| == |instructions|
      ensures IsRun(heaps, requests, state.Lossless())
      ensures forall i | 0 <= i < |instructions| :: RequestOf(this, instructions[i], heaps[i], requests[i])
      ensures heaps[0] == old(state.Snapshot()) && heaps[|heaps| - 1] == state.Snapshot()
      ensures forall i <- instructions :: IsDeclared(this, i, state.Snapshot())
      ensures Separable(old(state.Snapshot()), Pairs(requests), FieldEdges(requests)) ==> state.Lossless()
    {
      hide Step, PointeesSettled, WellFormed, IsRun, RequestOf, Separable, Pairs, FieldEdges, IsDeclared;
      heaps, requests := [state.Snapshot()], [];
      ghost var h := state.Snapshot();
      NoRun(h);
      NoRequests();
      EmptyStep(h, state.Lossless());
      for i := 0 to |instructions|
        invariant Valid() && |requests| == i && |heaps| == i + 1
        invariant heaps[0] == h && heaps[i] == state.Snapshot()
        invariant forall j | 0 <= j < i :: RequestOf(this, instructions[j], heaps[j], requests[j])
        invariant forall j | 0 <= j < i :: IsDeclared(this, instructions[j], state.Snapshot())
        invariant IsRun(heaps, requests, state.Lossless())
        invariant Step(h, Pairs(requests), FieldEdges(requests), state.Snapshot(), state.Lossless())
        invariant Separable(h, Pairs(requests), FieldEdges(requests)) ==> state.Lossless()
      {
        ghost var now, kept := state.Snapshot(), state.Lossless();
        ghost var q := VisitInstruction(instructions[i]);
        forall j | 0 <= j < i ensures IsDeclared(this, instructions[j], state.Snapshot()) {
          StaysDeclared(this, instructions[j], now, q.pairs, q.edges, state.Snapshot(), state.Lossless());
        }
        RunExtends(heaps, requests, kept, q, state.Snapshot(), state.Lossless());
        StepThen(h, Pairs(requests), FieldEdges(requests), now, kept, q.pairs, q.edges, state.Snapshot(),
                 state.Lossless());
        RequestsAdd(requests, q);
        SeparableNext(h, Pairs(requests), FieldEdges(requests), now, kept, q.pairs, q.edges,
                      Pairs(requests + [q]), FieldEdges(requests + [q]));
        SeparableSubset(h, Pairs(requests + [q]), FieldEdges(requests + [q]), Pairs(requests), FieldEdges(requests));
        heaps, requests := heaps + [state.Snapshot()], requests + [q];
      }
    }
  }

  lemma NoCallPairs(k: int, arg: Value, param: Value, ds: seq<Context>, site: Site)
    ensures CallPairs(k, arg, [], param, ds, site) == {}
  {
  }

  lemma AddCallPair(k: int, arg: Value, cs: seq<Context>, i: nat, param: Value, ds: seq<Context>, site: Site, j: nat,
                    matched: bool)
    requires i < |cs| && j <= |ds|
    requires forall x | 0 <= x < j - (if matched then 1 else 0) :: !KEqual(k, cs[i].Sites() + [site], ds[x].Sites())
    requires if matched then j > 0 && KEqual(k, cs[i].Sites() + [site], ds[j - 1].Sites()) else j == |ds|
    ensures CallPairs(k, arg, cs[..i + 1], param, ds, site) ==
            CallPairs(k, arg, cs[..i], param, ds, site)
            + if matched then {(MakeReference(cs[i], arg), MakeReference(ds[j - 1], param))} else {}
    ensures !matched ==> CallPairs(k, arg, cs[..i + 1], param, ds, site) == CallPairs(k, arg, cs[..i], param, ds, site)
    ensures CallPairs(k, arg, cs[..i + 1], param, ds, site) <= CallPairs(k, arg, cs, param, ds, site)
  {
    var c := cs[i];
    assert cs[..i + 1] == cs[..i] + [c];
    forall d ensures FirstMatch(k, c, site, ds, d) <==> matched && d == ds[j - 1] {
      if matched && d == ds[j - 1] {
        assert ds[j - 1] == d;
      }
    }
    CallPairsAdd(k, arg, cs[..i], c, param, ds, site);
  }

  lemma CallPairsAdd(k: int, arg: Value, cs: seq<Context>, c: Context, param: Value, ds: seq<Context>, site: Site)
    ensures CallPairs(k, arg, cs + [c], param, ds, site) ==
            CallPairs(k, arg, cs, param, ds, site)
            + set d | d in ds && FirstMatch(k, c, site, ds, d) :: (MakeReference(c, arg), MakeReference(d, param))
  {
    hide FirstMatch, MakeReference;
  }

  // ---- steps through a lookup ----

  lemma StoreKeepsCount(h: Heap, r: Reference, f: Field, t: Reference)
    requires r in h.partitions
    ensures |WithField(h, r, f, t).partitions| == |h.partitions|
  {
    assert WithField(h, r, f, t).partitions.Keys == h.partitions.Keys;
  }

  lemma MentionedEdge(e: Edge)
    ensures Mentioned({}, {e}) == {e.obj, e.target}
  {
    var N := {e};
    assert e in N;
    assert (set x | x in N :: x.obj) == {e.obj} && (set x | x in N :: x.target) == {e.target};
  }

  lemma EdgeStaysSettled(h: Heap, e: Edge, h': Heap, lossless: bool)
    requires Step(h, {}, {e}, h', lossless) && PointeesSettled(h)
    requires SettledIfPointee(h, e.obj) && SettledIfPointee(h, e.target)
    ensures PointeesSettled(h')
  {
    MentionedEdge(e);
    forall s <- Mentioned({}, {e}) ensures SettledIfPointee(h', s) {
      if s.Synthetic? && s.kind.ValueOf? {
        SettledSurvives(h, {}, {e}, h', lossless, s.ref);
      }
    }
    PointeesStaySettled(h, {}, {e}, h', lossless);
  }

  lemma PointeeSettled(h: Heap, p: Reference)
    requires WellFormed(h) && PointeesSettled(h) && p in Universe(h)
    ensures SettledIfPointee(h, p)
  {
  }

  lemma EnteredStaysSettled(h: Heap, r: Reference, s: Reference)
    requires WellFormed(h) && PointeesSettled(h)
    requires SettledIfPointee(h, r) && SettledIfPointee(h, s)
    ensures PointeesSettled(Entered(h, r)) && SettledIfPointee(Entered(h, r), s)
  {
    var h' := Entered(h, r);
    EnteredHeap(h, r);
    EnteredStep(h, r);
    MentionedPair(r, r);
    forall x | SettledIfPointee(h, x) ensures SettledIfPointee(h', x) {
      if x.Synthetic? && x.kind.ValueOf? {
        SettledSurvives(h, {(r, r)}, {}, h', true, x.ref);
      }
    }
    PointeesStaySettled(h, {(r, r)}, {}, h', true);
  }

  lemma EnteredHolds(h: Heap, r: Reference)
    requires WellFormed(h)
    ensures Entered(h, r).parents.Keys == h.parents.Keys + {r}
  {
    EnteredHeap(h, r);
  }

  lemma EnteredRepresentative(h: Heap, r: Reference)
    requires WellFormed(h) && r in h.parents && Root(h.parents, r) == r
    ensures Entered(h, r) == h
  {
  }

  /** Looking up two references, neither of them an unsettled pointee. */
  lemma BothEntered(h: Heap, a: Reference, b: Reference)
    requires WellFormed(h) && PointeesSettled(h) && SettledIfPointee(h, a) && SettledIfPointee(h, b)
    ensures PointeesSettled(EnteredBoth(h, a, b))
    ensures EnteredBoth(h, a, b).parents.Keys == h.parents.Keys + {a, b}
    ensures forall x :: Root(EnteredBoth(h, a, b).parents, x) == Root(h.parents, x)
  {
    hide Step, PointeesSettled, SettledIfPointee, WellFormed, Entered;
    EnteredStaysSettled(h, a, b);
    EnteredStaysSettled(Entered(h, a), b, b);
    EnteredHeap(h, a);
    EnteredHeap(Entered(h, a), b);
  }

  lemma StepHonoursEdge(h: Heap, e: Edge, h': Heap, lossless: bool)
    requires Step(h, {}, {e}, h', lossless)
    ensures WellFormed(h) && WellFormed(h') && HasField(h', e) && (lossless ==> HasEdge(h', e))
  {
    assert e in Edges(h) + {e};
  }

  lemma EdgeAfterQuiet(h: Heap, P: set<Pair>, mid: Heap, e: Edge, h': Heap, lossless: bool)
    requires Step(h, P, {}, mid, true) && Step(mid, {}, {e}, h', lossless)
    requires (forall p <- P :: p.0 == p.1) && Mentioned(P, {}) <= {e.obj, e.target}
    ensures Step(h, {}, {e}, h', lossless)
  {
    hide Step, WellFormed;
    StepThen(h, P, {}, mid, true, {}, {e}, h', lossless);
    StepHonoursEdge(mid, e, h', lossless);
    assert P + {} == P && {} + {e} == {e};
    MentionedEdge(e);
    MentionedUnion(P, {}, {}, {e});
    assert e in {e};
    forall L | Obeys(L, h, {}, {e}) ensures Identifies(L, P) && Justified(L, {e}, Edges(h) + {e}) {
      JustifiedReflexive(L, {e}, Edges(h) + {e});
    }
    StepReframe(h, P, {e}, h', lossless, {}, {e});
  }

  lemma EdgeAfterEntering(h: Heap, o: Reference, f: Field, t: Reference, h': Heap, lossless: bool)
    requires WellFormed(h) && Step(EnteredBoth(h, o, t), {}, {Edge(o, f, t)}, h', lossless)
    ensures Step(h, {}, {Edge(o, f, t)}, h', lossless)
  {
    hide Step, Entered, EnteredBoth, WellFormed;
    MentionedPair(o, o);
    MentionedPair(t, t);
    MentionedUnion({(o, o)}, {}, {(t, t)}, {});
    EdgeAfterQuiet(h, {(o, o)} + {(t, t)}, EnteredBoth(h, o, t), Edge(o, f, t), h', lossless);
  }

  lemma EdgeAfterLookup(h: Heap, o: Reference, f: Field, t: Reference, h': Heap, lossless: bool)
    requires WellFormed(h) && Step(Entered(h, o), {}, {Edge(o, f, t)}, h', lossless)
    ensures Step(h, {}, {Edge(o, f, t)}, h', lossless)
  {
    hide Step;
    EnteredStep(h, o);
    MentionedPair(o, o);
    EdgeAfterQuiet(h, {(o, o)}, Entered(h, o), Edge(o, f, t), h', lossless);
  }

  /** Looking references up costs no separating partition. */
  lemma SeparableAfterQuiet(h: Heap, P: set<Pair>, mid: Heap, e: Edge)
    requires Step(h, P, {}, mid, true) && forall p <- P :: p.0 == p.1
    ensures Separable(h, {}, {e}) ==> Separable(mid, {}, {e})
  {
    if Separable(h, {}, {e}) {
      forall L | Obeys(L, h, {}, {e}) ensures Identifies(L, P) && Justified(L, {e}, Edges(h) + {e}) {
        JustifiedReflexive(L, {e}, Edges(h) + {e});
      }
      SeparableReframe(h, P, {e}, {}, {e});
      SeparableNext(h, P, {}, mid, true, {}, {e}, P, {e});
    }
  }

  lemma EdgeSeparableEntered(h: Heap, o: Reference, f: Field, t: Reference)
    requires WellFormed(h)
    ensures Separable(h, {}, {Edge(o, f, t)}) ==> Separable(EnteredBoth(h, o, t), {}, {Edge(o, f, t)})
    ensures TargetsShareNoField(h, o, f, t) ==> TargetsShareNoField(EnteredBoth(h, o, t), o, f, t)
  {
    hide Step, Separable;
    SeparableAfterQuiet(h, {(o, o)} + {(t, t)}, EnteredBoth(h, o, t), Edge(o, f, t));
    EnteredHeap(h, o);
    EnteredHeap(Entered(h, o), t);
  }

  lemma EdgeSeparableLookup(h: Heap, o: Reference, f: Field, t: Reference)
    requires WellFormed(h)
    ensures Separable(h, {}, {Edge(o, f, t)}) ==> Separable(Entered(h, o), {}, {Edge(o, f, t)})
  {
    hide Step, Separable;
    EnteredStep(h, o);
    SeparableAfterQuiet(h, {(o, o)}, Entered(h, o), Edge(o, f, t));
  }

  /** obj has no field f yet, or what it holds shares no field with t. */
  ghost predicate TargetsShareNoField(h: Heap, obj: Reference, f: Field, t: Reference)
    requires WellFormed(h)
  {
    f in Fields(h, obj) ==> ShareNoField(h, Fields(h, obj)[f], t)
  }

  lemma SharesAsNamed(h: Heap, v: Reference, t: Reference, named: Reference)
    requires WellFormed(h) && Same(h, named, t)
    ensures ShareNoField(h, v, t) ==> ShareNoField(h, v, named)
  {
    FieldsOfRoot(h, t);
    FieldsOfRoot(h, named);
  }

  lemma FieldUnifySeparable(h: Heap, obj: Reference, f: Field, t: Reference, named: Reference)
    requires WellFormed(h) && f in Fields(h, obj) && Same(h, named, t)
    ensures Separable(h, {}, {Edge(obj, f, t)}) ==> Separable(h, {(Fields(h, obj)[f], named)}, {})
  {
    hide Separable;
    if Separable(h, {}, {Edge(obj, f, t)}) {
      forall L | Obeys(L, h, {}, {Edge(obj, f, t)})
        ensures Identifies(L, {(Fields(h, obj)[f], named)}) && Justified(L, {}, Edges(h) + {Edge(obj, f, t)})
      {
        FieldUnifyForced(h, obj, f, t, named, L);
      }
      SeparableReframe(h, {(Fields(h, obj)[f], named)}, {}, {}, {Edge(obj, f, t)});
    }
  }

  lemma SeparableSubset(h: Heap, P: set<Pair>, N: set<Edge>, P': set<Pair>, N': set<Edge>)
    requires P' <= P && N' <= N
    ensures Separable(h, P, N) ==> Separable(h, P', N')
  {
    hide Separable;
    if Separable(h, P, N) {
      SeparableFewer(h, P, N, P', N');
    }
  }

  lemma AddressIsSettled(h: Heap, addr: Reference)
    requires WellFormed(h) && PointeesSettled(h) && (addr.Synthetic? ==> addr in Universe(h))
    ensures SettledIfPointee(h, addr)
  {
  }

  lemma AddressIsHead(h: Heap, addr: Reference)
    requires WellFormed(h)
    ensures IsHead(h.parents, Root(h.parents, addr)) && Fields(h, Root(h.parents, addr)) == Fields(h, addr)
  {
    FieldsOfRoot(h, addr);
  }

  lemma KnownPointee(h: Heap, addr: Reference)
    requires WellFormed(h) && PointeesSettled(h) && SettledIfPointee(h, addr)
    requires DIRECT_POINT_TO_FIELD in Fields(h, addr)
    ensures PointeesSettled(Entered(h, addr)) && Fields(h, addr)[DIRECT_POINT_TO_FIELD] in Universe(Entered(h, addr))
    ensures Step(h, {}, {Edge(addr, DIRECT_POINT_TO_FIELD, Fields(h, addr)[DIRECT_POINT_TO_FIELD])}, Entered(h, addr),
                 true)
  {
    var p, h' := Fields(h, addr)[DIRECT_POINT_TO_FIELD], Entered(h, addr);
    EnteredHeap(h, addr);
    EnteredStep(h, addr);
    EnteredStaysSettled(h, addr, addr);
    EdgeOf(h', addr, DIRECT_POINT_TO_FIELD);
    MentionedPair(addr, addr);
    MentionedEdge(Edge(addr, DIRECT_POINT_TO_FIELD, p));
    StepReframe(h, {(addr, addr)}, {}, h', true, {}, {Edge(addr, DIRECT_POINT_TO_FIELD, p)});
  }

  lemma NewPointee(h: Heap, addr: Reference, p: Reference, h': Heap)
    requires WellFormed(h) && PointeesSettled(h) && SettledIfPointee(h, addr)
    requires DIRECT_POINT_TO_FIELD !in Fields(h, addr) && p == ValueAt(Root(h.parents, addr))
    requires h' == WithField(EnteredBoth(h, addr, p), Root(h.parents, addr), DIRECT_POINT_TO_FIELD, p)
    ensures WellFormed(h') && PointeesSettled(h') && p in Universe(h')
    ensures |h'.partitions| == |EnteredBoth(h, addr, p).partitions|
    ensures Step(h, {}, {Edge(addr, DIRECT_POINT_TO_FIELD, p)}, h', true)
  {
    NewPointeeStep(h, addr, p);
    StoreKeepsCount(EnteredBoth(h, addr, p), Root(h.parents, addr), DIRECT_POINT_TO_FIELD, p);
    NewPointeeSettled(h, addr, p, h');
  }

  lemma NewPointeeStep(h: Heap, addr: Reference, p: Reference)
    requires WellFormed(h) && DIRECT_POINT_TO_FIELD !in Fields(h, addr)
    ensures var h' := WithField(EnteredBoth(h, addr, p), Root(h.parents, addr), DIRECT_POINT_TO_FIELD, p);
      Step(h, {}, {Edge(addr, DIRECT_POINT_TO_FIELD, p)}, h', true) && p in h'.parents
  {
    var mid := EnteredBoth(h, addr, p);
    EnteredHeap(h, addr);
    EnteredHeap(Entered(h, addr), p);
    assert Root(mid.parents, addr) == Root(h.parents, addr) && Fields(mid, addr) == Fields(h, addr);
    WithFieldStep(mid, addr, DIRECT_POINT_TO_FIELD, p, p);
    EdgeAfterEntering(h, addr, DIRECT_POINT_TO_FIELD, p,
                      WithField(mid, Root(h.parents, addr), DIRECT_POINT_TO_FIELD, p), true);
  }

  lemma NewPointeeSettled(h: Heap, addr: Reference, p: Reference, h': Heap)
    requires WellFormed(h) && PointeesSettled(h) && SettledIfPointee(h, addr) && p == ValueAt(Root(h.parents, addr))
    requires Step(h, {}, {Edge(addr, DIRECT_POINT_TO_FIELD, p)}, h', true)
    ensures PointeesSettled(h')
  {
    var e := Edge(addr, DIRECT_POINT_TO_FIELD, p);
    MentionedEdge(e);
    NewPointeeIsSettled(h, addr, p, h');
    IfPointeeSurvives(h, {}, {e}, h', true, addr);
    hide Step, SettledIfPointee, PointeesSettled, WellFormed, Mentioned;
    PointeesStaySettled(h, {}, {e}, h', true);
  }

  lemma NewPointeeIsSettled(h: Heap, addr: Reference, p: Reference, h': Heap)
    requires WellFormed(h) && p == ValueAt(Root(h.parents, addr))
    requires Step(h, {}, {Edge(addr, DIRECT_POINT_TO_FIELD, p)}, h', true)
    ensures SettledIfPointee(h', p)
  {
    var e := Edge(addr, DIRECT_POINT_TO_FIELD, p);
    assert e in Edges(h) + {e};
    assert HasField(h', e);
    assert Root(h'.parents, Root(h.parents, addr)) == Root(h'.parents, addr);
  }

  lemma IfPointeeSurvives(h: Heap, P: set<Pair>, N: set<Edge>, h': Heap, lossless: bool, s: Reference)
    requires Step(h, P, N, h', lossless) && SettledIfPointee(h, s)
    ensures SettledIfPointee(h', s)
  {
    if s.Synthetic? && s.kind.ValueOf? {
      SettledSurvives(h, P, N, h', lossless, s.ref);
    }
  }

  // ---- instructions ----

  /** The visitor's constraint-generating actions. */
  datatype Instruction =
    | Declare(v: Value)                                    // initFunction, initGlobalReferences
    | UnifyValues(u: Value, v: Value)                      // visitPhi, visitConvert, visitSlice, ...
    | AccessHeap(data: Value, base: Value, fd: Field)      // visitSend, processIndex, ...
    | LoadStore(addr: Value, value: Value)                 // visitStore, visitUnOp
    | TakeFieldAddress(obj: Value, fd: Field, addr: Value) // visitFieldAddr, visitIndexAddr
    | BindArgument(arg: Value, param: Value, site: Site)   // visitCall

  /** What an instruction constrains, where ValueAt(o) stands for what an address o points to. */
  ghost function Constraint(vis: Visitor, i: Instruction): Request
    reads vis
  {
    match i
    case Declare(v) => Request(LocalPairs(vis.GetContexts(v), v, v), {})
    case UnifyValues(u, v) =>
      Request(if MayShareObject(u) && MayShareObject(v) then LocalPairs(vis.GetContexts(u), u, v) else {}, {})
    case AccessHeap(data, base, fd) =>
      Request({}, if data.shareable then ContextEdges(vis.GetContexts(base), base, fd, data) else {})
    case LoadStore(addr, value) =>
      Request({}, if addr.shareable && value.shareable
                  then ContextEdges(vis.GetContexts(addr), addr, DIRECT_POINT_TO_FIELD, value) else {})
    case TakeFieldAddress(obj, fd, addr) => Request({}, AllAddressEdges(vis.GetContexts(addr), obj, fd, addr))
    case BindArgument(arg, param, site) =>
      Request(CallPairs(vis.contextK, arg, vis.GetContexts(arg), param, vis.GetContexts(param), site), {})
  }

  /** What the visitor asks for in state h: the constraint itself; but the pointee of an address is what the state, as
      the contexts are handled one by one, says it is. */
  ghost predicate RequestOf(vis: Visitor, i: Instruction, h: Heap, q: Request)
    reads vis
  {
    if i.TakeFieldAddress? then
      exists heaps, requests :: TakesAddresses(vis.GetContexts(i.addr), heaps, requests, i.obj, i.fd, i.addr)
        && heaps[0] == h && q == Request({}, FieldEdges(requests))
    else q == Constraint(vis, i)
  }

  /** A declared value is in the heap in all its contexts. */
  ghost predicate IsDeclared(vis: Visitor, i: Instruction, h: Heap)
    reads vis
  {
    i.Declare? ==> forall c <- vis.GetContexts(i.v) :: MakeReference(c, i.v) in h.parents
  }

  lemma StaysDeclared(vis: Visitor, i: Instruction, h: Heap, P: set<Pair>, N: set<Edge>, h': Heap, lossless: bool)
    requires IsDeclared(vis, i, h) && Step(h, P, N, h', lossless)
    ensures IsDeclared(vis, i, h')
  {
  }

  /** obj points to p, whose field fd is the address. */
  ghost function EdgesThrough(p: Reference, context: Context, obj: Value, fd: Field, addr: Value): set<Edge> {
    {Edge(MakeReference(context, obj), DIRECT_POINT_TO_FIELD, p)} + {Edge(p, fd, MakeReference(context, addr))}
  }

  ghost function AddressEdges(h: Heap, context: Context, obj: Value, fd: Field, addr: Value): set<Edge>
    requires WellFormed(h)
  {
    EdgesThrough(PointeeOf(h, MakeReference(context, obj)), context, obj, fd, addr)
  }

  ghost function AllAddressEdges(contexts: seq<Context>, obj: Value, fd: Field, addr: Value): set<Edge> {
    set c, e | c in contexts && e in EdgesThrough(ValueAt(MakeReference(c, obj)), c, obj, fd, addr) :: e
  }

  /** A run that takes the address in one context after the other. */
  ghost predicate TakesAddresses(contexts: seq<Context>, heaps: seq<Heap>, requests: seq<Request>, obj: Value,
                                 fd: Field, addr: Value) {
    && IsRun(heaps, requests, false) && |requests| == |contexts|
    && forall i | 0 <= i < |contexts| :: TakesAddress(contexts[i], heaps[i], requests[i], obj, fd, addr)
  }

  ghost predicate TakesAddress(context: Context, h: Heap, q: Request, obj: Value, fd: Field, addr: Value) {
    WellFormed(h) && q == Request({}, AddressEdges(h, context, obj, fd, addr))
  }

  lemma NoRunFor(h: Heap)
    requires WellFormed(h)
    ensures IsRun([h], [], false)
  {
  }

  lemma TakesOneMore(contexts: seq<Context>, heaps: seq<Heap>, requests: seq<Request>, obj: Value, fd: Field,
                     addr: Value, h: Heap, lossless: bool)
    requires |requests| < |contexts| && TakesAddresses(contexts[..|requests|], heaps, requests, obj, fd, addr)
    requires var i := |requests|;
      WellFormed(heaps[i]) && Step(heaps[i], {}, AddressEdges(heaps[i], contexts[i], obj, fd, addr), h, lossless)
    ensures var i := |requests|;
      TakesAddresses(contexts[..i + 1], heaps + [h],
                     requests + [Request({}, AddressEdges(heaps[i], contexts[i], obj, fd, addr))],
                     obj, fd, addr)
  {
    hide Step, AddressEdges;
    var i := |requests|;
    var q := Request({}, AddressEdges(heaps[i], contexts[i], obj, fd, addr));
    StepWeaken(heaps[i], {}, q.edges, h, lossless, false);
    RunExtends(heaps, requests, false, q, h, false);
    forall j | 0 <= j < i + 1 ensures TakesAddress(contexts[j], (heaps + [h])[j], (requests + [q])[j], obj, fd, addr) {
      if j < i {
        assert TakesAddress(contexts[..i][j], heaps[j], requests[j], obj, fd, addr);
      }
    }
  }

  /** A second visit to the pointee of an address, any lossless steps later, yields the same class. */
  lemma PointeeIsStable(addr: Reference, h0: Heap, p0: Reference, h1: Heap, P: set<Pair>, N: set<Edge>, h2: Heap,
                        p2: Reference, h3: Heap)
    requires Step(h0, {}, {Edge(addr, DIRECT_POINT_TO_FIELD, p0)}, h1, true)
    requires Step(h1, P, N, h2, true)
    requires Step(h2, {}, {Edge(addr, DIRECT_POINT_TO_FIELD, p2)}, h3, true)
    ensures Same(h3, p0, p2)
  {
    var e0, e2 := Edge(addr, DIRECT_POINT_TO_FIELD, p0), Edge(addr, DIRECT_POINT_TO_FIELD, p2);
    Honoured(h0, {}, {e0}, h1, true, p0, p0, e0);
    Survival(h1, P, N, h2, true, p0, p0, e0);
    Survival(h2, {}, {e2}, h3, true, p0, p0, e0);
    Honoured(h2, {}, {e2}, h3, true, p0, p0, e2);
  }

  /** One context per call string: the shared empty one, or one of the function's own. */
  ghost predicate ContextsOf(g: CallGraph, fn: Function, k: int, cs: seq<Context>) {
    && (forall s :: IsCallString(g, fn, k, s) <==> exists c <- cs :: c.Sites() == s)
    && (WellFormedGraph(g) ==> forall i, j | 0 <= i < j < |cs| :: cs[i].Sites() != cs[j].Sites())
  }

  /** The contexts for the call strings of fn. Without callers or for K = 0 it is the shared one. */
  function Handles(g: CallGraph, fn: Function, k: int, strings: seq<seq<Site>>): seq<Context> {
    if k <= 0 || |In(g, fn)| == 0 then seq(|strings|, i => EmptyContext)
    else seq(|strings|, i requires 0 <= i < |strings| => CallString(fn, i, strings[i]))
  }

  lemma HandlesHaveContexts(g: CallGraph, fn: Function, k: int, strings: seq<seq<Site>>)
    requires forall s :: s in strings <==> IsCallString(g, fn, k, s)
    requires WellFormedGraph(g) ==> Graphs.Distinct(strings)
    ensures ContextsOf(g, fn, k, Handles(g, fn, k, strings))
  {
    var cs := Handles(g, fn, k, strings);
    forall i | 0 <= i < |cs| ensures cs[i].Sites() == strings[i] {
      assert strings[i] in strings;
    }
    forall s ensures IsCallString(g, fn, k, s) <==> exists c <- cs :: c.Sites() == s {
      if s in strings {
        var i :| 0 <= i < |strings| && strings[i] == s;
        assert cs[i].Sites() == s;
      }
    }
  }

  lemma PairStaysSettled(h: Heap, a: Reference, b: Reference, h': Heap, lossless: bool)
    requires Step(h, {(a, b)}, {}, h', lossless) && PointeesSettled(h)
    requires SettledIfPointee(h', a) && SettledIfPointee(h', b)
    ensures PointeesSettled(h')
  {
    MentionedPair(a, b);
    PointeesStaySettled(h, {(a, b)}, {}, h', lossless);
  }
}
