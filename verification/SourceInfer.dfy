/** Inference of sources over the object graph (internal/pkg/sourceinfer/analyzer.go). */
module SourceInfer {
  import opened Graphs

  /** The identity of a types.Object. */
  datatype Object = Object(id: nat)

  /** From an object to those whose definitions mention it. */
  type ObjectGraph = map<Object, seq<Object>>

  function Successors(g: ObjectGraph, o: Object): seq<Object> {
    if o in g then g[o] else []
  }

  function Next(g: ObjectGraph): Relation<Object> {
    (a, b) => a in g && b in g[a]
  }

  /** Keys and successors. */
  ghost function Nodes(g: ObjectGraph): set<Object> {
    g.Keys + set o, n | o in g && n in g[o] :: n
  }

  // ---- topological order ----

  /** Every successor comes earlier in the order, unless it leads back. */
  ghost predicate SuccessorsFirst(g: ObjectGraph, order: seq<Object>) {
    forall i, v | 0 <= i < |order| && v in Successors(g, order[i]) :: v in order[..i] || Reach(Next(g), v, order[i])
  }

  ghost predicate IsAcyclic(g: ObjectGraph) {
    forall u :: !ReachPlus(Next(g), u, u)
  }

  class TopoSort {
    const graph: ObjectGraph
    var order: seq<Object>
    var visited: set<Object>

    constructor (graph: ObjectGraph)
      ensures this.graph == graph && order == [] && visited == {}
    {
      this.graph := graph;
      order, visited := [], {};
    }

    /** Visited but not yet listed: the objects whose successors are still being visited. */
    ghost function Pending(): set<Object>
      reads this
    {
      visited - Elements(order)
    }

    ghost predicate Valid()
      reads this
    {
      && Distinct(order) && Elements(order) <= visited <= Nodes(graph)
      && SuccessorsFirst(graph, order)
    }

    method Visit(o: Object)
      requires Valid() && o in Nodes(graph)
      requires forall w <- Pending() :: Reach(Next(graph), w, o)
      modifies this
      ensures Valid() && o in visited && old(visited) <= visited
      ensures Pending() == old(Pending())
      ensures old(order) <= order
      decreases Nodes(graph) - visited
    {
      if o in visited {
        return;
      }
      ghost var pending := Pending();
      visited := visited + {o};
      var ns := Successors(graph, o);
      ReachSelf(Next(graph), o);
      for i := 0 to |ns|
        invariant Valid() && o in visited && old(visited) <= visited && old(order) <= order
        invariant Pending() == pending + {o}
        invariant forall j | 0 <= j < i :: ns[j] in visited
      {
        SuccessorIsNode(graph, o, ns[i]);
        forall w <- Pending() ensures Reach(Next(graph), w, ns[i]) {
          ReachByEdge(Next(graph), w, o, ns[i]);
        }
        Visit(ns[i]);
      }
      Listed(graph, order, visited, o);
      order := order + [o];
    }

    method Sort()
      requires order == [] && visited == {}
      modifies this
      ensures Distinct(order) && Elements(order) == Nodes(graph)
      ensures SuccessorsFirst(graph, order)
    {
      var rest := graph.Keys;
      while rest != {}
        invariant rest <= graph.Keys
        invariant Valid() && Pending() == {} && graph.Keys - rest <= visited
        decreases rest
      {
        var o :| o in rest;
        Visit(o);
        rest := rest - {o};
      }
      assert graph.Keys - rest == graph.Keys;
      assert visited <= Elements(order) by {
        assert Pending() == {};
      }
      forall n <- Nodes(graph) ensures n in order {
        assert n in graph ==> n in Elements(order);
        if n !in graph {
          var o :| o in graph && n in graph[o];
          SuccessorsListed(graph, order, o, n);
        }
      }
    }
  }

  lemma SuccessorIsNode(g: ObjectGraph, o: Object, n: Object)
    requires n in Successors(g, o)
    ensures n in Nodes(g)
  {
    assert o in g && n in g[o];
  }

  lemma Listed(g: ObjectGraph, order: seq<Object>, visited: set<Object>, o: Object)
    requires Distinct(order) && Elements(order) <= visited && SuccessorsFirst(g, order)
    requires o in visited - Elements(order)
    requires forall w <- visited - Elements(order) :: Reach(Next(g), w, o)
    requires forall n <- Successors(g, o) :: n in visited
    ensures Distinct(order + [o]) && SuccessorsFirst(g, order + [o])
    ensures Elements(order + [o]) == Elements(order) + {o}
  {
    var order' := order + [o];
    forall i, v | 0 <= i < |order'| && v in Successors(g, order'[i])
      ensures v in order'[..i] || Reach(Next(g), v, order'[i])
    {
      if i < |order| {
        assert order'[..i] == order[..i] && order'[i] == order[i];
      } else {
        assert order'[..i] == order;
      }
    }
  }

  lemma SuccessorsListed(g: ObjectGraph, order: seq<Object>, o: Object, n: Object)
    requires SuccessorsFirst(g, order) && g.Keys <= Elements(order)
    requires o in g && n in g[o]
    ensures n in order
  {
    var i :| 0 <= i < |order| && order[i] == o;
    if n !in order[..i] {
      ReachSplits(Next(g), n, o);
      assert n in g ==> n in Elements(order);
    }
  }

  /** For a direct edge u to v where v does not lead back to u, v comes first. */
  lemma EdgeOrder(g: ObjectGraph, order: seq<Object>, i: nat, v: Object)
    requires Distinct(order) && SuccessorsFirst(g, order)
    requires i < |order| && order[i] in g && v in g[order[i]] && !Reach(Next(g), v, order[i])
    ensures exists j | 0 <= j < i :: order[j] == v
  {
    assert v in order[..i];
  }

  /** Without cycles everything an object leads to comes before it. */
  lemma {:induction false} AcyclicOrder(g: ObjectGraph, order: seq<Object>, i: nat, w: seq<Object>, v: Object)
    requires IsAcyclic(g) && Distinct(order) && SuccessorsFirst(g, order)
    requires i < |order| && WalkFrom(Next(g), order[i], w, v) && |w| > 1
    ensures exists j | 0 <= j < i :: order[j] == v
    decreases |w|
  {
    assert Next(g)(w[0], w[0 + 1]);
    NoWayBack(g, w[0], w[1]);
    EdgeOrder(g, order, i, w[1]);
    if |w| > 2 {
      var j :| 0 <= j < i && order[j] == w[1];
      assert WalkFrom(Next(g), order[j], w[1..], v);
      AcyclicOrder(g, order, j, w[1..], v);
    }
  }

  lemma NoWayBack(g: ObjectGraph, u: Object, v: Object)
    requires IsAcyclic(g) && v in Successors(g, u)
    ensures !Reach(Next(g), v, u)
  {
    assert Next(g)(u, v);
    assert !ReachPlus(Next(g), u, u);
  }

  // ---- inference ----

  /** Some member of the set leads to o. */
  ghost predicate LedTo(g: ObjectGraph, s: set<Object>, o: Object) {
    exists b <- s :: Reach(Next(g), b, o)
  }

  /** Some member of the set leads to o by at least one edge. */
  ghost predicate LedToPlus(g: ObjectGraph, s: set<Object>, o: Object) {
    exists b <- s :: ReachPlus(Next(g), b, o)
  }

  /** inferSources. The base sources are configured, tagged, or carry a fact imported from elsewhere; local are
      the objects of the current package. Also returns the set seen and the objects that started a search. */
  method InferSources(g: ObjectGraph, declared: set<Object>, imported: set<Object>, local: set<Object>)
    returns (inferred: set<Object>, seen: set<Object>, starters: set<Object>)
    ensures forall o :: o in seen <==> LedTo(g, Nodes(g) * (declared + imported), o)
    ensures IsLeastClosed(g, Nodes(g) * (declared + imported), seen)
    ensures starters <= declared + imported
    ensures inferred == seen * local - starters
    ensures IsAcyclic(g) ==>
              forall o | o in local :: o in inferred <==> LedToPlus(g, declared + imported, o)
  {
    var sorter := new TopoSort(g);
    sorter.Sort();
    var order := sorter.order;
    var facts := imported;
    ghost var bases := declared + imported;
    hide Reach, Searching, SuccessorsFirst, StartedFirst;
    inferred, seen, starters := {}, {}, {};
    var i := |order|;
    while i > 0
      invariant 0 <= i <= |order|
      invariant SearchDone(g, bases, seen, starters)
      invariant inferred == seen * local - starters && facts == imported + inferred
      invariant forall k | i <= k < |order| && order[k] in bases :: order[k] in seen
      invariant forall s <- starters :: StartedFirst(g, bases, order, s)
    {
      i := i - 1;
      var o := order[i];
      if o in seen || !(o in declared || o in facts) {
        continue;
      }
      ghost var seen0 := seen;
      assert o in Elements(order) && IsClosed(Next(g), seen);
      seen, inferred, facts := SearchFrom(g, o, local, seen, inferred, facts);
      SearchFinished(g, bases, order, i, seen0, seen, starters);
      starters := starters + {o};
    }
    InferenceIsExact(g, bases, order, seen, starters);
    ReachedIsLeastClosed(g, Nodes(g) * bases, seen);
  }

  /** The smallest set that holds the start and whatever the graph lists for a member. */
  ghost predicate IsLeastClosed(g: ObjectGraph, start: set<Object>, s: set<Object>) {
    && start <= s && HoldsListed(g, s)
    && forall s' | start <= s' && HoldsListed(g, s') :: s <= s'
  }

  ghost predicate HoldsListed(g: ObjectGraph, s: set<Object>) {
    forall o, n | o in s && o in g && n in g[o] :: n in s
  }

  lemma ReachedIsLeastClosed(g: ObjectGraph, start: set<Object>, s: set<Object>)
    requires forall o :: o in s <==> LedTo(g, start, o)
    ensures IsLeastClosed(g, start, s)
  {
    hide Reach;
    forall b <- start ensures b in s {
      ReachSelf(Next(g), b);
    }
    forall o, n | o in s && o in g && n in g[o] ensures n in s {
      var b :| b in start && Reach(Next(g), b, o);
      ReachByEdge(Next(g), b, o, n);
    }
    forall s' | start <= s' && HoldsListed(g, s') ensures s <= s' {
      forall o <- s ensures o in s' {
        var b :| b in start && Reach(Next(g), b, o);
        ClosedKeepsReach(Next(g), s', b, o);
      }
    }
  }

  /** The search that inferSources starts at an unseen base source. */
  method SearchFrom(g: ObjectGraph, o: Object, local: set<Object>, seen0: set<Object>, inferred0: set<Object>,
                    facts0: set<Object>)
    returns (seen: set<Object>, inferred: set<Object>, facts: set<Object>)
    requires o in Nodes(g) && o !in seen0 && seen0 <= Nodes(g) && IsClosed(Next(g), seen0)
    ensures Searching(g, o, seen0, seen, []) && seen0 + {o} <= seen
    ensures inferred == inferred0 + (seen - seen0 - {o}) * local
    ensures facts == facts0 + (seen - seen0 - {o}) * local
  {
    hide Reach, Searching, Scanning;
    seen, inferred, facts := seen0 + {o}, inferred0, facts0;
    var stack := [o];
    StartSearch(g, o, seen0);
    while stack != []
      invariant Searching(g, o, seen0, seen, stack) && seen0 + {o} <= seen
      invariant inferred == inferred0 + (seen - seen0 - Elements(stack) - {o}) * local
      invariant facts == facts0 + (seen - seen0 - Elements(stack) - {o}) * local
      decreases Nodes(g) - seen, |stack|
    {
      var current := stack[|stack| - 1];
      ghost var before, rest := seen, stack[..|stack| - 1];
      StartScan(g, o, seen0, seen, stack);
      stack := stack[..|stack| - 1];
      if current in local && current != o {
        facts := facts + {current};
        inferred := inferred + {current};
      }
      ghost var done := seen - Elements(stack);
      assert inferred == inferred0 + (done - seen0 - {o}) * local;
      assert facts == facts0 + (done - seen0 - {o}) * local;
      var ns := Successors(g, current);
      for j := 0 to |ns|
        invariant before <= seen && (seen == before ==> stack == rest)
        invariant Scanning(g, o, seen0, seen, stack, current, j)
        invariant seen - Elements(stack) == done
      {
        if ns[j] !in seen {
          Pushed(g, o, seen0, seen, stack, current, j);
          seen := seen + {ns[j]};
          stack := stack + [ns[j]];
        } else {
          Skipped(g, o, seen0, seen, stack, current, j);
        }
      }
      Scanned(g, o, seen0, seen, stack, current);
      assert done - seen0 - {o} == seen - seen0 - Elements(stack) - {o};
    }
  }

  lemma StartSearch(g: ObjectGraph, o: Object, seen0: set<Object>)
    requires o in Nodes(g) && o !in seen0 && seen0 <= Nodes(g) && IsClosed(Next(g), seen0)
    ensures Searching(g, o, seen0, seen0 + {o}, [o])
    ensures Elements([o]) == {o}
  {
    ReachSelf(Next(g), o);
  }

  lemma Scanned(g: ObjectGraph, o: Object, seen0: set<Object>, seen: set<Object>, stack: seq<Object>, current: Object)
    requires Scanning(g, o, seen0, seen, stack, current, |Successors(g, current)|)
    ensures Searching(g, o, seen0, seen, stack)
  {
  }

  /** Between two searches: what was seen is what the starters reach. */
  ghost predicate SearchDone(g: ObjectGraph, bases: set<Object>, seen: set<Object>, starters: set<Object>) {
    && starters <= seen * bases && seen <= Nodes(g) && IsClosed(Next(g), seen)
    && forall x {:trigger LedTo(g, starters, x)} :: x in seen ==> LedTo(g, starters, x)
  }

  /** No base source that precedes s in the search order leads to s. */
  ghost predicate StartedFirst(g: ObjectGraph, bases: set<Object>, order: seq<Object>, s: Object) {
    exists j | 0 <= j < |order| :: order[j] == s
      && forall k | j < k < |order| && order[k] in bases :: !Reach(Next(g), order[k], s)
  }

  /** During the search from o: what is new is reached from o, and only the stack awaits its successors. */
  ghost predicate Searching(g: ObjectGraph, o: Object, seen0: set<Object>, seen: set<Object>, stack: seq<Object>) {
    && o !in seen0 && seen0 + {o} <= seen <= Nodes(g) && IsClosed(Next(g), seen0)
    && Distinct(stack) && Elements(stack) <= seen - seen0
    && (forall x <- seen - seen0 :: Reach(Next(g), o, x))
    && forall x, y | x in seen - Elements(stack) && Next(g)(x, y) :: y in seen
  }

  /** As before, with current popped and its first j successors looked at. */
  ghost predicate Scanning(g: ObjectGraph, o: Object, seen0: set<Object>, seen: set<Object>, stack: seq<Object>,
                           current: Object, j: nat)
    requires j <= |Successors(g, current)|
  {
    && o !in seen0 && seen0 + {o} <= seen <= Nodes(g) && IsClosed(Next(g), seen0)
    && Distinct(stack) && Elements(stack) <= seen - seen0
    && (forall x <- seen - seen0 :: Reach(Next(g), o, x))
    && current in seen - Elements(stack) - seen0
    && (forall k | 0 <= k < j :: Successors(g, current)[k] in seen)
    && forall x, y | x in seen - Elements(stack) - {current} && Next(g)(x, y) :: y in seen
  }

  lemma StartScan(g: ObjectGraph, o: Object, seen0: set<Object>, seen: set<Object>, stack: seq<Object>)
    requires Searching(g, o, seen0, seen, stack) && stack != []
    ensures var current, rest := stack[|stack| - 1], stack[..|stack| - 1];
      && Scanning(g, o, seen0, seen, rest, current, 0)
      && current in Elements(stack) && current in seen - seen0 && Elements(rest) == Elements(stack) - {current}
  {
    var current, rest := stack[|stack| - 1], stack[..|stack| - 1];
    assert stack == rest + [current];
    assert current in Elements(stack);
    assert Elements(rest) == Elements(stack) - {current};
  }

  lemma Pushed(g: ObjectGraph, o: Object, seen0: set<Object>, seen: set<Object>, stack: seq<Object>, current: Object,
               j: nat)
    requires j < |Successors(g, current)| && Scanning(g, o, seen0, seen, stack, current, j)
    requires Successors(g, current)[j] !in seen
    ensures var n := Successors(g, current)[j];
      && Scanning(g, o, seen0, seen + {n}, stack + [n], current, j + 1)
      && Elements(stack + [n]) == Elements(stack) + {n}
  {
    var n := Successors(g, current)[j];
    SuccessorIsNode(g, current, n);
    ReachByEdge(Next(g), o, current, n);
    assert Elements(stack + [n]) == Elements(stack) + {n};
  }

  lemma Skipped(g: ObjectGraph, o: Object, seen0: set<Object>, seen: set<Object>, stack: seq<Object>, current: Object,
                j: nat)
    requires j < |Successors(g, current)| && Scanning(g, o, seen0, seen, stack, current, j)
    requires Successors(g, current)[j] in seen
    ensures Scanning(g, o, seen0, seen, stack, current, j + 1)
  {
  }

  lemma SearchFinished(g: ObjectGraph, bases: set<Object>, order: seq<Object>, i: nat, seen0: set<Object>,
                       seen: set<Object>, starters: set<Object>)
    requires i < |order| && order[i] in bases && Searching(g, order[i], seen0, seen, [])
    requires SearchDone(g, bases, seen0, starters)
    requires forall k | i < k < |order| && order[k] in bases :: order[k] in seen0
    ensures SearchDone(g, bases, seen, starters + {order[i]})
    ensures StartedFirst(g, bases, order, order[i])
  {
    hide Reach;
    forall x <- seen ensures LedTo(g, starters + {order[i]}, x) {
      if x in seen0 {
        assert LedTo(g, starters, x);
        var s :| s in starters && Reach(Next(g), s, x);
        assert s in starters + {order[i]};
      } else {
        assert order[i] in starters + {order[i]};
      }
    }
    forall k | i < k < |order| && order[k] in bases ensures !Reach(Next(g), order[k], order[i]) {
      if Reach(Next(g), order[k], order[i]) {
        ClosedKeepsReach(Next(g), seen0, order[k], order[i]);
      }
    }
  }

  /** With all base sources of the graph seen: exactly what they reach was seen, and without cycles an object
      that some base source leads to did not start a search itself. */
  lemma InferenceIsExact(g: ObjectGraph, bases: set<Object>, order: seq<Object>, seen: set<Object>,
                         starters: set<Object>)
    requires SearchDone(g, bases, seen, starters)
    requires Distinct(order) && SuccessorsFirst(g, order) && Elements(order) == Nodes(g)
    requires forall k | 0 <= k < |order| && order[k] in bases :: order[k] in seen
    requires forall s <- starters :: StartedFirst(g, bases, order, s)
    ensures forall o :: o in seen <==> LedTo(g, Nodes(g) * bases, o)
    ensures IsAcyclic(g) ==> forall o :: o in seen - starters <==> LedToPlus(g, bases, o)
  {
    hide Reach, ReachPlus, SuccessorsFirst, StartedFirst;
    forall b | b in Nodes(g) && b in bases ensures b in seen {
      assert b in Elements(order);
    }
    forall o ensures o in seen <==> LedTo(g, Nodes(g) * bases, o) {
      if LedTo(g, Nodes(g) * bases, o) {
        var b :| b in Nodes(g) * bases && Reach(Next(g), b, o);
        ClosedKeepsReach(Next(g), seen, b, o);
      }
      if o in seen {
        assert LedTo(g, starters, o);
        var s :| s in starters && Reach(Next(g), s, o);
        assert s in Nodes(g) * bases;
      }
    }
    if IsAcyclic(g) {
      forall o ensures o in seen - starters <==> LedToPlus(g, bases, o) {
        if o in seen - starters {
          assert LedTo(g, starters, o);
          var s :| s in starters && Reach(Next(g), s, o);
          ReachSplits(Next(g), s, o);
        }
        if LedToPlus(g, bases, o) {
          var b :| b in bases && ReachPlus(Next(g), b, o);
          LedToIsNoStarter(g, bases, order, seen, starters, b, o);
        }
      }
    }
  }

  lemma LedToIsNoStarter(g: ObjectGraph, bases: set<Object>, order: seq<Object>, seen: set<Object>,
                         starters: set<Object>, b: Object, o: Object)
    requires IsAcyclic(g) && SearchDone(g, bases, seen, starters)
    requires Distinct(order) && SuccessorsFirst(g, order) && Elements(order) == Nodes(g)
    requires forall k | 0 <= k < |order| && order[k] in bases :: order[k] in seen
    requires forall s <- starters :: StartedFirst(g, bases, order, s)
    requires b in bases && ReachPlus(Next(g), b, o)
    ensures o in seen && o !in starters
  {
    hide Reach, SuccessorsFirst;
    var c :| Next(g)(b, c) && Reach(Next(g), c, o);
    assert b in Nodes(g);
    assert b in Elements(order);
    var i :| 0 <= i < |order| && order[i] == b;
    ReachPlusIsReach(Next(g), b, o);
    ClosedKeepsReach(Next(g), seen, b, o);
    if o in starters {
      ComesEarlier(g, order, i, c, o);
    }
  }

  lemma ComesEarlier(g: ObjectGraph, order: seq<Object>, i: nat, c: Object, o: Object)
    requires IsAcyclic(g) && Distinct(order) && SuccessorsFirst(g, order)
    requires i < |order| && c in Successors(g, order[i]) && Reach(Next(g), c, o)
    ensures exists j | 0 <= j < i :: order[j] == o
  {
    var w :| WalkFrom(Next(g), c, w, o);
    assert WalkFrom(Next(g), order[i], [order[i]] + w, o);
    AcyclicOrder(g, order, i, [order[i]] + w, o);
  }
}
