/** Call strings of length at most K (internal/pkg/earpointer/analysis.go: collectContext,
    contextKEqual). */
module CallStrings {
  import opened References
  import opened Graphs

  /** An incoming edge of a call graph node. */
  datatype CallEdge = CallEdge(caller: Function, site: Site)

  /** The In edges of every node. */
  type CallGraph = map<Function, seq<CallEdge>>

  function In(g: CallGraph, n: Function): seq<CallEdge> {
    if n in g then g[n] else []
  }

  function Last<T>(s: seq<T>): T
    requires s != []
  {
    s[|s| - 1]
  }

  function Front<T>(s: seq<T>): seq<T>
    requires s != []
  {
    s[..|s| - 1]
  }

  /** s spells the sites of a backward walk from n that takes k edges, or fewer when it arrives at a
      function nobody calls. */
  ghost predicate IsCallString(g: CallGraph, n: Function, k: int, s: seq<Site>)
    decreases |s|
  {
    if k <= 0 || |In(g, n)| == 0 then s == []
    else s != [] && exists e <- In(g, n) :: e.site == Last(s) && IsCallString(g, e.caller, k - 1, Front(s))
  }

  /** A call instruction belongs to one function, and a node does not list an edge twice. */
  ghost predicate WellFormedGraph(g: CallGraph) {
    && (forall m, n, d, e | d in In(g, m) && e in In(g, n) && d.site == e.site :: d.caller == e.caller)
    && (forall n, i, j | 0 <= i < j < |In(g, n)| :: In(g, n)[i] != In(g, n)[j])
  }

  /** Exactly the call strings of the node; each once if sites identify edges. */
  method CollectContext(g: CallGraph, node: Function, k: int) returns (kContexts: seq<seq<Site>>)
    ensures forall s :: s in kContexts <==> IsCallString(g, node, k, s)
    ensures WellFormedGraph(g) ==> Distinct(kContexts)
    decreases k
  {
    hide IsCallString, WellFormedGraph, EndsWith, Distinct;
    if k <= 0 || |In(g, node)| == 0 {
      NoCalls(g, node, k);
      return [[]];
    }
    var edges := In(g, node);
    kContexts := [];
    SpellsNone(g, k);
    for i := 0 to |edges|
      invariant Spells(g, k, edges[..i], kContexts)
      invariant WellFormedGraph(g) ==> Distinct(kContexts)
    {
      var prevs := CollectContext(g, edges[i].caller, k - 1);
      ghost var before := kContexts;
      ghost var ext := Extended(prevs, edges[i].site);
      for j := 0 to |prevs|
        invariant kContexts == before + ext[..j]
      {
        kContexts := kContexts + [prevs[j] + [edges[i].site]];
      }
      assert ext[..|prevs|] == ext;
      ExtendedContents(g, k, edges, i, prevs, before);
      ExtendedDistinct(g, node, k, edges, i, prevs, before);
    }
    assert edges[..|edges|] == edges;
    SpellsAll(g, node, k, kContexts);
  }

  ghost predicate EndsWith(g: CallGraph, k: int, edges: seq<CallEdge>, s: seq<Site>)
    requires s != []
  {
    exists e <- edges :: e.site == Last(s) && IsCallString(g, e.caller, k - 1, Front(s))
  }

  /** The strings are those that come in over one of the edges. */
  ghost predicate Spells(g: CallGraph, k: int, edges: seq<CallEdge>, strings: seq<seq<Site>>) {
    forall s :: s in strings <==> s != [] && EndsWith(g, k, edges, s)
  }

  lemma NoCalls(g: CallGraph, n: Function, k: int)
    requires k <= 0 || In(g, n) == []
    ensures forall s :: s in [[]] <==> IsCallString(g, n, k, s)
    ensures Distinct<seq<Site>>([[]])
  {
  }

  lemma SpellsNone(g: CallGraph, k: int)
    ensures Spells(g, k, [], []) && Distinct<seq<Site>>([])
  {
  }

  lemma SpellsAll(g: CallGraph, n: Function, k: int, strings: seq<seq<Site>>)
    requires Spells(g, k, In(g, n), strings) && k > 0 && In(g, n) != []
    ensures forall s :: s in strings <==> IsCallString(g, n, k, s)
  {
  }

  ghost function Extended(prevs: seq<seq<Site>>, site: Site): (r: seq<seq<Site>>) {
    seq(|prevs|, i requires 0 <= i < |prevs| => prevs[i] + [site])
  }

  lemma ExtendedContents(g: CallGraph, k: int, edges: seq<CallEdge>, i: nat, prevs: seq<seq<Site>>,
                         before: seq<seq<Site>>)
    requires i < |edges|
    requires Spells(g, k, edges[..i], before)
    requires forall s :: s in prevs <==> IsCallString(g, edges[i].caller, k - 1, s)
    ensures Spells(g, k, edges[..i + 1], before + Extended(prevs, edges[i].site))
  {
    var site := edges[i].site;
    var ext := Extended(prevs, site);
    assert edges[..i + 1] == edges[..i] + [edges[i]];
    forall s ensures s in ext <==> s != [] && Last(s) == site && IsCallString(g, edges[i].caller, k - 1, Front(s)) {
      if s in ext {
        var j :| 0 <= j < |ext| && ext[j] == s;
        assert Front(s) == prevs[j];
      }
      if s != [] && Last(s) == site && Front(s) in prevs {
        var j :| 0 <= j < |prevs| && prevs[j] == Front(s);
        assert ext[j] == s;
      }
    }
  }

  lemma ExtendedDistinct(g: CallGraph, n: Function, k: int, edges: seq<CallEdge>, i: nat, prevs: seq<seq<Site>>,
                         before: seq<seq<Site>>)
    requires edges == In(g, n) && i < |edges|
    requires Spells(g, k, edges[..i], before)
    requires WellFormedGraph(g) ==> Distinct(before) && Distinct(prevs)
    ensures WellFormedGraph(g) ==> Distinct(before + Extended(prevs, edges[i].site))
  {
    if WellFormedGraph(g) {
      var ext := Extended(prevs, edges[i].site);
      forall x, y | 0 <= x < |before| && 0 <= y < |ext| ensures before[x] != ext[y] {
        assert before[x] in before;
        var e :| e in edges[..i] && e.site == Last(before[x]);
        var j :| 0 <= j < i && edges[j] == e;
        assert edges[j] != edges[i];
        assert edges[i] in In(g, n) && e in In(g, n);
      }
      forall x, y | 0 <= x < y < |ext| ensures ext[x] != ext[y] {
        assert prevs[x] == Front(ext[x]) && prevs[y] == Front(ext[y]);
      }
    }
  }

  // ---- matching ----

  /** The last K sites agree, as far as both contexts go. */
  predicate KEqual(k: int, c1: seq<Site>, c2: seq<Site>) {
    forall i | 0 <= i < k && i < |c1| && i < |c2| :: FromEnd(c1, i) == FromEnd(c2, i)
  }

  /** The site i calls before the last one. */
  function FromEnd(s: seq<Site>, i: nat): Site
    requires i < |s|
  {
    s[|s| - i - 1]
  }

  method ContextKEqual(contextK: int, c1: seq<Site>, c2: seq<Site>) returns (equal: bool)
    ensures equal <==> KEqual(contextK, c1, c2)
  {
    var l1, l2 := |c1|, |c2|;
    var i := 0;
    while i < contextK
      invariant 0 <= i
      invariant i <= l1 && i <= l2
      invariant forall j | 0 <= j < i :: FromEnd(c1, j) == FromEnd(c2, j)
    {
      if i >= l1 || i >= l2 {
        return true;
      }
      if c1[l1 - i - 1] != c2[l2 - i - 1] {
        assert FromEnd(c1, i) != FromEnd(c2, i);
        return false;
      }
      i := i + 1;
    }
    return true;
  }

  function LastK(k: int, s: seq<Site>): seq<Site> {
    if k <= 0 then [] else if |s| <= k then s else s[|s| - k..]
  }

  lemma CallStringEnd(g: CallGraph, n: Function, k: int, s: seq<Site>)
    requires IsCallString(g, n, k, s) && (k <= 0 || In(g, n) == [])
    ensures s == []
  {
  }

  lemma LastCall(g: CallGraph, n: Function, k: int, s: seq<Site>) returns (e: CallEdge)
    requires IsCallString(g, n, k, s) && k > 0 && In(g, n) != []
    ensures s != [] && e in In(g, n) && e.site == Last(s) && IsCallString(g, e.caller, k - 1, Front(s))
  {
    e :| e in In(g, n) && e.site == Last(s) && IsCallString(g, e.caller, k - 1, Front(s));
  }

  lemma AddCall(g: CallGraph, n: Function, k: int, s: seq<Site>, e: CallEdge)
    requires k > 0 && s != [] && e in In(g, n) && e.site == Last(s) && IsCallString(g, e.caller, k - 1, Front(s))
    ensures IsCallString(g, n, k, s)
  {
  }

  /** Cutting a call string to one edge less gives a call string for one edge less. */
  lemma {:induction false} Truncated(g: CallGraph, n: Function, k: int, s: seq<Site>)
    requires k > 0 && IsCallString(g, n, k, s)
    ensures |s| <= k
    ensures IsCallString(g, n, k - 1, LastK(k - 1, s))
    decreases k
  {
    if In(g, n) != [] {
      var e := LastCall(g, n, k, s);
      if k > 1 {
        Truncated(g, e.caller, k - 1, Front(s));
        var t := LastK(k - 1, s);
        assert Last(t) == Last(s) && Front(t) == LastK(k - 2, Front(s));
        AddCall(g, n, k - 1, t, e);
      } else {
        CallStringEnd(g, e.caller, 0, Front(s));
      }
    }
  }

  lemma FrontsAgree(k: int, c: seq<Site>, d: seq<Site>)
    requires k > 0 && c != [] && d != [] && KEqual(k, c, d)
    ensures Last(c) == Last(d) && KEqual(k - 1, Front(c), Front(d))
  {
    assert FromEnd(c, 0) == FromEnd(d, 0);
    forall i | 0 <= i < k - 1 && i < |Front(c)| && i < |Front(d)|
      ensures FromEnd(Front(c), i) == FromEnd(Front(d), i)
    {
      assert FromEnd(c, i + 1) == FromEnd(d, i + 1);
    }
  }

  /** Call strings of one function that agree as far as both go are equal: "no more to compare" never
      confuses a string with a longer one. */
  lemma {:induction false} AgreeingAreEqual(g: CallGraph, n: Function, k: int, c: seq<Site>, d: seq<Site>)
    requires WellFormedGraph(g)
    requires IsCallString(g, n, k, c) && IsCallString(g, n, k, d) && KEqual(k, c, d)
    ensures c == d
    decreases |c|
  {
    hide IsCallString, KEqual;
    if k <= 0 || In(g, n) == [] {
      CallStringEnd(g, n, k, c);
      CallStringEnd(g, n, k, d);
    } else {
      var e := LastCall(g, n, k, c);
      var e' := LastCall(g, n, k, d);
      FrontsAgree(k, c, d);
      assert e.caller == e'.caller;
      AgreeingAreEqual(g, e.caller, k - 1, Front(c), Front(d));
      assert c == Front(c) + [Last(c)] && d == Front(d) + [Last(d)];
    }
  }

  /** At a call edge every caller context, extended by the site, matches exactly one context of the
      callee: its own last K sites. */
  lemma UniqueMatch(g: CallGraph, callee: Function, e: CallEdge, k: int, c: seq<Site>)
    requires WellFormedGraph(g) && e in In(g, callee) && IsCallString(g, e.caller, k, c)
    ensures IsCallString(g, callee, k, LastK(k, c + [e.site]))
    ensures forall d | IsCallString(g, callee, k, d) :: KEqual(k, c + [e.site], d) <==> d == LastK(k, c + [e.site])
  {
    var whole := c + [e.site];
    var own := LastK(k, whole);
    OwnContext(g, callee, e, k, c);
    hide IsCallString, KEqual, LastK;
    forall d | IsCallString(g, callee, k, d)
      ensures KEqual(k, whole, d) <==> d == own
    {
      LastKAgrees(k, whole, d);
      if KEqual(k, whole, d) {
        AgreeingAreEqual(g, callee, k, own, d);
      }
    }
  }

  lemma OwnContext(g: CallGraph, callee: Function, e: CallEdge, k: int, c: seq<Site>)
    requires e in In(g, callee) && IsCallString(g, e.caller, k, c)
    ensures IsCallString(g, callee, k, LastK(k, c + [e.site]))
  {
    if k > 0 {
      Truncated(g, e.caller, k, c);
      var own := LastK(k, c + [e.site]);
      assert Last(own) == e.site && Front(own) == LastK(k - 1, c);
      hide IsCallString, LastK;
      AddCall(g, callee, k, own, e);
    }
  }

  /** Only the last K sites take part in a comparison. */
  lemma LastKAgrees(k: int, s: seq<Site>, d: seq<Site>)
    ensures KEqual(k, s, d) <==> KEqual(k, LastK(k, s), d)
    ensures KEqual(k, s, LastK(k, s))
  {
    var own := LastK(k, s);
    assert forall i | 0 <= i < k && i < |own| :: FromEnd(own, i) == FromEnd(s, i);
  }
}
