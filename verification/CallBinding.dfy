/** How arguments are bound to the parameters of a callee, context by context
    (internal/pkg/earpointer/analysis.go: unifyCallWithContexts). */
module CallBinding {
  import opened References
  import opened CallStrings
  import opened Visitor

  // ---- arguments that are locals of the caller ----

  /** At a call edge no context of the argument is skipped, and each is bound to exactly one context of the
      parameter: its own last K sites. */
  lemma CallPairsAreExact(g: CallGraph, callee: Function, e: CallEdge, k: int, arg: Value, cs: seq<Context>,
                          param: Value, ds: seq<Context>)
    requires WellFormedGraph(g) && e in In(g, callee)
    requires ContextsOf(g, e.caller, k, cs) && ContextsOf(g, callee, k, ds)
    ensures forall c <- cs :: exists d <- ds :: d.Sites() == LastK(k, c.Sites() + [e.site])
    ensures CallPairs(k, arg, cs, param, ds, e.site) ==
            set c, d | c in cs && d in ds && d.Sites() == LastK(k, c.Sites() + [e.site]) ::
              (MakeReference(c, arg), MakeReference(d, param))
  {
    forall c <- cs
      ensures exists d <- ds :: d.Sites() == LastK(k, c.Sites() + [e.site])
      ensures forall d <- ds :: FirstMatch(k, c, e.site, ds, d) <==> d.Sites() == LastK(k, c.Sites() + [e.site])
    {
      MatchIsOwnContext(g, callee, e, k, cs, c, ds);
    }
  }

  lemma MatchIsOwnContext(g: CallGraph, callee: Function, e: CallEdge, k: int, cs: seq<Context>, c: Context,
                          ds: seq<Context>)
    requires WellFormedGraph(g) && e in In(g, callee) && c in cs
    requires ContextsOf(g, e.caller, k, cs) && ContextsOf(g, callee, k, ds)
    ensures exists d <- ds :: d.Sites() == LastK(k, c.Sites() + [e.site])
    ensures forall d <- ds :: FirstMatch(k, c, e.site, ds, d) <==> d.Sites() == LastK(k, c.Sites() + [e.site])
  {
    assert IsCallString(g, e.caller, k, c.Sites());
    UniqueMatch(g, callee, e, k, c.Sites());
    hide IsCallString, WellFormedGraph, KEqual, LastK;
    forall i | 0 <= i < |ds|
      ensures KEqual(k, c.Sites() + [e.site], ds[i].Sites()) <==> ds[i].Sites() == LastK(k, c.Sites() + [e.site])
    {
      assert IsCallString(g, callee, k, ds[i].Sites());
    }
    forall d <- ds ensures FirstMatch(k, c, e.site, ds, d) <==> d.Sites() == LastK(k, c.Sites() + [e.site]) {
      OnlyMatch(g, k, c, e.site, ds, d);
    }
  }

  /** When the candidates that match have equal sites and no two candidates do, the first match is the only one. */
  lemma OnlyMatch(g: CallGraph, k: int, c: Context, site: Site, ds: seq<Context>, d: Context)
    requires d in ds
    requires forall i | 0 <= i < |ds| ::
      KEqual(k, c.Sites() + [site], ds[i].Sites()) <==> ds[i].Sites() == LastK(k, c.Sites() + [site])
    requires forall i, j | 0 <= i < j < |ds| :: ds[i].Sites() != ds[j].Sites()
    ensures FirstMatch(k, c, site, ds, d) <==> d.Sites() == LastK(k, c.Sites() + [site])
  {
    hide KEqual, LastK;
    var j :| 0 <= j < |ds| && ds[j] == d;
    if d.Sites() == LastK(k, c.Sites() + [site]) {
      assert forall i | 0 <= i < j :: !KEqual(k, c.Sites() + [site], ds[i].Sites());
    }
  }

  // ---- arguments without a caller context ----

  /** The callee contexts that a site alone matches. */
  ghost predicate Matches(k: int, site: Site, d: Context) {
    KEqual(k, [site], d.Sites())
  }

  ghost predicate IsBound(k: int, arg: Value, param: Value, ds: seq<Context>, site: Site, d: Context) {
    (MakeReference(EmptyContext, arg), MakeReference(d, param)) in CallPairs(k, arg, [EmptyContext], param, ds, site)
  }

  ghost predicate OneCallString(g: CallGraph, n: Function, k: int) {
    forall s, s' | IsCallString(g, n, k, s) && IsCallString(g, n, k, s') :: s == s'
  }

  /** A global has the empty context only. The loop stops at the first callee context that matches, so all that match
      are bound if and only if K is at most zero or the caller has a single call string of length K - 1. */
  lemma GlobalReachesAllContextsIff(g: CallGraph, callee: Function, e: CallEdge, k: int, arg: Value, param: Value,
                                    ds: seq<Context>)
    requires WellFormedGraph(g) && e in In(g, callee) && ContextsOf(g, callee, k, ds) && param.Register?
    ensures (forall d <- ds | Matches(k, e.site, d) :: IsBound(k, arg, param, ds, e.site, d)) <==>
            k <= 0 || OneCallString(g, e.caller, k - 1)
  {
    hide IsCallString, ContextsOf;
    forall d <- ds ensures IsBound(k, arg, param, ds, e.site, d) <==> FirstMatch(k, EmptyContext, e.site, ds, d) {
      BoundIsFirst(k, arg, param, ds, e.site, d);
    }
    if k <= 0 || OneCallString(g, e.caller, k - 1) {
      forall d <- ds | Matches(k, e.site, d) ensures FirstMatch(k, EmptyContext, e.site, ds, d) {
        SingleMatchIsFirst(g, callee, e, k, ds, d);
      }
    } else {
      var s, s' :| IsCallString(g, e.caller, k - 1, s) && IsCallString(g, e.caller, k - 1, s') && s != s';
      var d := ContextThrough(g, callee, e, k, ds, s);
      var d' := ContextThrough(g, callee, e, k, ds, s');
      if FirstMatch(k, EmptyContext, e.site, ds, d) && FirstMatch(k, EmptyContext, e.site, ds, d') {
        FirstMatchIsUnique(k, e.site, ds, d, d');
      }
    }
  }

  lemma BoundIsFirst(k: int, arg: Value, param: Value, ds: seq<Context>, site: Site, d: Context)
    requires d in ds && param.Register?
    ensures IsBound(k, arg, param, ds, site, d) <==> FirstMatch(k, EmptyContext, site, ds, d)
  {
    hide FirstMatch;
    assert EmptyContext in [EmptyContext];
  }

  lemma FirstMatchIsUnique(k: int, site: Site, ds: seq<Context>, d: Context, d': Context)
    requires FirstMatch(k, EmptyContext, site, ds, d) && FirstMatch(k, EmptyContext, site, ds, d')
    ensures d == d'
  {
  }

  /** The callee context for a call string of the caller. */
  lemma ContextThrough(g: CallGraph, callee: Function, e: CallEdge, k: int, ds: seq<Context>, s: seq<Site>)
    returns (d: Context)
    requires k > 0 && e in In(g, callee) && ContextsOf(g, callee, k, ds) && IsCallString(g, e.caller, k - 1, s)
    ensures d in ds && d.Sites() == s + [e.site] && Front(d.Sites()) == s && Matches(k, e.site, d)
  {
    var t := s + [e.site];
    assert Last(t) == e.site && Front(t) == s;
    AddCall(g, callee, k, t, e);
    d := ContextFor(g, callee, k, ds, t);
  }

  lemma ContextFor(g: CallGraph, n: Function, k: int, cs: seq<Context>, s: seq<Site>) returns (c: Context)
    requires ContextsOf(g, n, k, cs) && IsCallString(g, n, k, s)
    ensures c in cs && c.Sites() == s
  {
    hide IsCallString;
    c :| c in cs && c.Sites() == s;
  }

  /** A callee context that matches the site comes through this very call edge. */
  lemma MatchComesThrough(g: CallGraph, callee: Function, e: CallEdge, k: int, d: Context)
    requires WellFormedGraph(g) && k > 0 && e in In(g, callee)
    requires IsCallString(g, callee, k, d.Sites()) && Matches(k, e.site, d)
    ensures d.Sites() != [] && Last(d.Sites()) == e.site && IsCallString(g, e.caller, k - 1, Front(d.Sites()))
  {
    hide IsCallString;
    var e' := LastCall(g, callee, k, d.Sites());
    assert FromEnd([e.site], 0) == FromEnd(d.Sites(), 0);
  }

  lemma SingleMatchIsFirst(g: CallGraph, callee: Function, e: CallEdge, k: int, ds: seq<Context>, d: Context)
    requires WellFormedGraph(g) && e in In(g, callee) && ContextsOf(g, callee, k, ds)
    requires k <= 0 || OneCallString(g, e.caller, k - 1)
    requires d in ds && Matches(k, e.site, d)
    ensures FirstMatch(k, EmptyContext, e.site, ds, d)
  {
    var j :| 0 <= j < |ds| && ds[j] == d;
    forall i | 0 <= i < j ensures !KEqual(k, EmptyContext.Sites() + [e.site], ds[i].Sites()) {
      assert EmptyContext.Sites() + [e.site] == [e.site];
      assert IsCallString(g, callee, k, ds[i].Sites()) && IsCallString(g, callee, k, d.Sites());
      if Matches(k, e.site, ds[i]) {
        SameString(g, callee, e, k, ds[i], d);
      }
    }
  }

  lemma SameString(g: CallGraph, callee: Function, e: CallEdge, k: int, c: Context, d: Context)
    requires WellFormedGraph(g) && e in In(g, callee)
    requires IsCallString(g, callee, k, c.Sites()) && IsCallString(g, callee, k, d.Sites())
    requires Matches(k, e.site, c) && Matches(k, e.site, d)
    requires k <= 0 || OneCallString(g, e.caller, k - 1)
    ensures c.Sites() == d.Sites()
  {
    hide IsCallString, Matches, WellFormedGraph;
    if k > 0 {
      MatchComesThrough(g, callee, e, k, c);
      MatchComesThrough(g, callee, e, k, d);
      assert c.Sites() == Front(c.Sites()) + [e.site] && d.Sites() == Front(d.Sites()) + [e.site];
    } else {
      CallStringEnd(g, callee, k, c.Sites());
      CallStringEnd(g, callee, k, d.Sites());
    }
  }

  /** A global is never left unbound, and bound to one context only: the first that came in over the call. */
  lemma GlobalIsBoundOnce(g: CallGraph, callee: Function, e: CallEdge, k: int, arg: Value, param: Value,
                          ds: seq<Context>)
    returns (d: Context)
    requires WellFormedGraph(g) && e in In(g, callee) && ContextsOf(g, callee, k, ds) && param.Register?
    ensures d in ds && Matches(k, e.site, d)
    ensures CallPairs(k, arg, [EmptyContext], param, ds, e.site) ==
            {(MakeReference(EmptyContext, arg), MakeReference(d, param))}
  {
    var s := SomeCallString(g, e.caller, k - 1);
    if k > 0 {
      d := ContextThrough(g, callee, e, k, ds, s);
    } else {
      assert IsCallString(g, callee, k, []);
      d := ContextFor(g, callee, k, ds, []);
    }
    d := FirstOf(k, e.site, ds, d);
    hide FirstMatch;
    forall x <- ds ensures FirstMatch(k, EmptyContext, e.site, ds, x) <==> x == d {
      if FirstMatch(k, EmptyContext, e.site, ds, x) {
        FirstMatchIsUnique(k, e.site, ds, x, d);
      }
    }
  }

  lemma {:induction false} SomeCallString(g: CallGraph, n: Function, k: int) returns (s: seq<Site>)
    ensures IsCallString(g, n, k, s)
    decreases k
  {
    if k <= 0 || In(g, n) == [] {
      s := [];
    } else {
      var e := In(g, n)[0];
      var front := SomeCallString(g, e.caller, k - 1);
      s := front + [e.site];
      assert Last(s) == e.site && Front(s) == front;
      AddCall(g, n, k, s, e);
    }
  }

  lemma FirstOf(k: int, site: Site, ds: seq<Context>, d: Context) returns (first: Context)
    requires d in ds && Matches(k, site, d)
    ensures first in ds && Matches(k, site, first) && FirstMatch(k, EmptyContext, site, ds, first)
  {
    assert EmptyContext.Sites() + [site] == [site];
    var j := 0;
    while !Matches(k, site, ds[j])
      invariant 0 <= j < |ds| && exists i | j <= i < |ds| :: ds[i] == d
      invariant forall i | 0 <= i < j :: !Matches(k, site, ds[i])
      decreases |ds| - j
    {
      j := j + 1;
    }
    first := ds[j];
    assert ds[j] == first;
  }

  /** A callee value that is a global has the empty context, which every context of the argument matches. */
  lemma GlobalParameterBindsAll(k: int, arg: Value, cs: seq<Context>, param: Value, site: Site)
    ensures CallPairs(k, arg, cs, param, [EmptyContext], site) ==
            set c | c in cs :: (MakeReference(c, arg), MakeReference(EmptyContext, param))
  {
    forall c ensures FirstMatch(k, c, site, [EmptyContext], EmptyContext) {
      assert [EmptyContext][0] == EmptyContext;
    }
  }

  // ---- two contexts, one of them bound ----

  /** A main function that calls a caller twice, which passes a global on. */
  const MAIN := Function(0)
  const CALLER := Function(1)
  const CALLEE := Function(2)
  const TWICE: CallGraph :=
    map[CALLER := [CallEdge(MAIN, Site(0)), CallEdge(MAIN, Site(1))], CALLEE := [CallEdge(CALLER, Site(2))]]

  /** For K = 2 a context of the callee matches the call, yet the global is not unified with its parameter. */
  lemma GlobalMissesContext(arg: Value, param: Value, ds: seq<Context>) returns (d: Context)
    requires param.Register? && ContextsOf(TWICE, CALLEE, 2, ds)
    ensures WellFormedGraph(TWICE)
    ensures d in ds && Matches(2, Site(2), d) && !IsBound(2, arg, param, ds, Site(2), d)
  {
    TwiceIsWellFormed();
    TwoStrings();
    hide IsCallString, ContextsOf, Matches, IsBound, In, WellFormedGraph;
    GlobalReachesAllContextsIff(TWICE, CALLEE, CallEdge(CALLER, Site(2)), 2, arg, param, ds);
    d :| d in ds && Matches(2, Site(2), d) && !IsBound(2, arg, param, ds, Site(2), d);
  }

  lemma TwiceIn(n: Function)
    ensures In(TWICE, n) == if n == CALLER then [CallEdge(MAIN, Site(0)), CallEdge(MAIN, Site(1))]
                            else if n == CALLEE then [CallEdge(CALLER, Site(2))] else []
  {
  }

  lemma TwiceIsWellFormed()
    ensures WellFormedGraph(TWICE) && In(TWICE, CALLEE) == [CallEdge(CALLER, Site(2))]
  {
    TwiceIn(CALLEE);
    hide In;
    forall n, e | e in In(TWICE, n) ensures e.caller == if e.site == Site(2) then CALLER else MAIN {
      TwiceIn(n);
    }
    forall n, i, j | 0 <= i < j < |In(TWICE, n)| ensures In(TWICE, n)[i] != In(TWICE, n)[j] {
      TwiceIn(n);
    }
  }

  lemma TwoStrings()
    ensures !OneCallString(TWICE, CALLER, 1)
  {
    ReachedBy(0);
    ReachedBy(1);
    hide In, IsCallString;
    assert [Site(0)][0] != [Site(1)][0];
  }

  lemma ReachedBy(i: nat)
    requires i < 2
    ensures IsCallString(TWICE, CALLER, 1, [Site(i)])
  {
    var s := [Site(i)];
    assert In(TWICE, CALLER)[i] == CallEdge(MAIN, Site(i));
    assert Last(s) == Site(i) && Front(s) == [];
    AddCall(TWICE, CALLER, 1, s, CallEdge(MAIN, Site(i)));
  }
}
