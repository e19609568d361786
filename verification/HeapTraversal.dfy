/** Bounded traversals of the finalised heap and of the call graph (internal/pkg/earpointer/taint.go). */
module HeapTraversal {
  import opened References
  import opened UnionFind
  import opened AbstractHeap
  import opened EarState
  import opened EarPartitions
  import Graphs

  // ---- field references ----

  /** What finalize leaves when all chains are short: parents are representatives, so are field targets, and
      the members of a representative are the references mapped to it. */
  ghost predicate IsNormalHeap(h: Partitions)
    reads h
  {
    && (forall r <- h.parents :: h.parents[r] in h.partitions)
    && (forall rep <- h.partitions :: rep in h.parents && h.parents[rep] == rep)
    && (forall rep, f | rep in h.partitions && f in h.partitions[rep].fieldRefs ::
          h.partitions[rep].fieldRefs[f] in h.partitions)
    && IsMemberIndex(h.members, h.parents)
  }

  /** A finalised index that agrees with its state is such a heap. */
  lemma AgreementIsNormal(p: Partitions, h: Heap)
    requires WellFormed(h) && Targets(h) <= h.parents.Keys && AgreesWith(p, h)
    ensures IsNormalHeap(p)
  {
    AgreementIndexesMembers(p, h);
    hide IsMemberIndex, IsReverseIndex;
    forall rep, f | rep in p.partitions && f in p.partitions[rep].fieldRefs
      ensures p.partitions[rep].fieldRefs[f] in p.partitions
    {
      var t := h.partitions[rep].fieldRefs[f];
      assert Edge(rep, f, t) in Edges(h);
      assert t in Targets(h);
    }
  }

  lemma AgreementIndexesMembers(p: Partitions, h: Heap)
    requires WellFormed(h) && Targets(h) <= h.parents.Keys && AgreesWith(p, h)
    ensures IsMemberIndex(p.members, p.parents)
  {
    hide Targets, IsReverseIndex;
    forall rep ensures rep in p.parents.Values <==> rep in h.partitions {
      if rep in h.partitions {
        assert p.parents[rep] == rep;
      }
    }
    forall rep ensures MembersOf(p.parents, rep) == set r | r in h.parents && Root(h.parents, r) == rep {
    }
  }

  predicate PointsTo(partitions: PartitionInfoMap, rep: Reference, t: Reference) {
    rep in partitions && t in partitions[rep].fieldRefs.Values
  }

  function FieldEdge(partitions: PartitionInfoMap): Graphs.Relation<Reference> {
    (rep, t) => PointsTo(partitions, rep, t)
  }

  /** The in-scope members of the partitions that field edges lead to from rep. */
  ghost predicate IsFieldReference(h: Partitions, scope: set<Reference>, rep: Reference, m: Reference)
    reads h
  {
    m in h.parents && m in scope && Graphs.Reach(FieldEdge(h.partitions), rep, h.parents[m])
  }

  /** A set of references that several calls fill in place. */
  class ReferenceSet {
    var refs: set<Reference>

    constructor ()
      ensures refs == {}
    {
      refs := {};
    }
  }

  class Traversal {
    const heap: Partitions
    /** The references whose function is within the reachable ones, and those without a function. */
    const scope: set<Reference>
    var visited: set<Reference>

    constructor (heap: Partitions, scope: set<Reference>)
      ensures this.heap == heap && this.scope == scope && visited == {}
    {
      this.heap, this.scope, visited := heap, scope, {};
    }

    ghost predicate Valid()
      reads this, heap
    {
      IsNormalHeap(heap) && visited <= heap.parents.Keys
    }

    /** m is an in-scope member of the partition of x. */
    ghost predicate IsMemberOf(x: Reference, m: Reference)
      reads heap
    {
      m in heap.parents && m in scope && x in heap.parents && heap.parents[m] == heap.parents[x]
    }

    /** Some reference of the set is in m's partition. */
    ghost predicate Covers(xs: set<Reference>, m: Reference)
      reads heap
    {
      exists x <- xs :: IsMemberOf(x, m)
    }

    ghost predicate LeadsTo(ref: Reference, x: Reference)
      reads heap
    {
      && ref in heap.parents && x in heap.parents
      && Graphs.Reach(FieldEdge(heap.partitions), heap.parents[ref], heap.parents[x])
    }

    /** Every field target of x's partition is in the set. */
    ghost predicate IsExpanded(seen: set<Reference>, x: Reference)
      reads heap
    {
      x in heap.parents && forall t | PointsTo(heap.partitions, heap.parents[x], t) :: t in seen
    }

    /** Adds the in-scope members of the partitions visited by this call: that of ref and whatever its fields
        lead to, except through references visited before. */
    method FieldRefs(ref: Reference, result: ReferenceSet)
      requires Valid() && ref in heap.parents && result as object != heap
      modifies `visited, result
      ensures Valid() && old(visited) + {ref} <= visited
      ensures forall x <- visited - old(visited) + {ref} :: LeadsTo(ref, x)
      ensures forall x <- visited - old(visited) + {ref} :: IsExpanded(visited, x)
      ensures forall m :: m in result.refs <==> m in old(result.refs) || Covers(visited - old(visited) + {ref}, m)
      decreases heap.parents.Keys - visited - {ref}
    {
      hide IsMemberIndex;
      visited := visited + {ref};
      var rep := heap.Representative(ref);
      AddMembers(ref, result);
      StartsAt(ref);
      var fmap := heap.partitions[rep].fieldRefs;
      var rest := fmap.Keys;
      while rest != {}
        invariant rest <= fmap.Keys && Valid() && old(visited) + {ref} <= visited
        invariant forall x <- visited - old(visited) + {ref} :: LeadsTo(ref, x)
        invariant forall x <- visited - old(visited) - {ref} :: IsExpanded(visited, x)
        invariant forall f <- fmap.Keys - rest :: fmap[f] in visited
        invariant forall m :: m in result.refs <==> m in old(result.refs) || Covers(visited - old(visited) + {ref}, m)
        decreases rest
      {
        var fd :| fd in rest;
        var r := fmap[fd];
        if r !in visited {
          ghost var before := visited;
          FieldRefs(r, result);
          forall x | LeadsTo(r, x) ensures LeadsTo(ref, x) {
            ThroughField(ref, fd, x);
          }
          forall x <- before - old(visited) - {ref} ensures IsExpanded(visited, x) {
            assert IsExpanded(before, x);
          }
          CoversUnion(before - old(visited) + {ref}, visited - before + {r});
          assert visited - old(visited) + {ref} == (before - old(visited) + {ref}) + (visited - before + {r});
        }
        rest := rest - {fd};
      }
    }

    lemma StartsAt(ref: Reference)
      requires ref in heap.parents
      ensures LeadsTo(ref, ref)
    {
      Graphs.ReachSelf(FieldEdge(heap.partitions), heap.parents[ref]);
    }

    lemma ThroughField(ref: Reference, fd: Field, x: Reference)
      requires IsNormalHeap(heap) && ref in heap.parents && fd in heap.partitions[heap.parents[ref]].fieldRefs
      requires LeadsTo(heap.partitions[heap.parents[ref]].fieldRefs[fd], x)
      ensures LeadsTo(ref, x)
    {
      var rep := heap.parents[ref];
      var r := heap.partitions[rep].fieldRefs[fd];
      assert heap.parents[r] == r && PointsTo(heap.partitions, rep, r);
      Graphs.ReachEdge(FieldEdge(heap.partitions), rep, r);
      Graphs.ReachTransitive(FieldEdge(heap.partitions), rep, r, heap.parents[x]);
    }

    lemma CoversUnion(xs: set<Reference>, ys: set<Reference>)
      ensures forall m :: Covers(xs + ys, m) <==> Covers(xs, m) || Covers(ys, m)
    {
      forall m ensures Covers(xs + ys, m) <==> Covers(xs, m) || Covers(ys, m) {
        if Covers(xs, m) {
          var x :| x in xs && IsMemberOf(x, m);
          assert x in xs + ys;
        }
        if Covers(ys, m) {
          var y :| y in ys && IsMemberOf(y, m);
          assert y in xs + ys;
        }
      }
    }

    /** The first loop of fieldRefs. */
    method AddMembers(ref: Reference, result: ReferenceSet)
      requires Valid() && ref in heap.parents && result as object != heap
      modifies result
      ensures forall m :: m in result.refs <==> m in old(result.refs) || IsMemberOf(ref, m)
    {
      ghost var rep := heap.parents[ref];
      assert rep in heap.parents.Values;
      var members := heap.members[heap.Representative(ref)];
      for i := 0 to |members|
        invariant forall m :: m in result.refs <==> m in old(result.refs) || (m in scope && m in members[..i])
      {
        if members[i] in scope {
          result.refs := result.refs + {members[i]};
        }
      }
      assert members[..|members|] == members;
      forall m ensures m in members <==> m in heap.parents && heap.parents[m] == rep {
        assert m in multiset(members) <==> m in multiset(MembersOf(heap.parents, rep));
      }
    }
  }

  /** A traversal that starts with nothing visited adds exactly the in-scope members of all partitions reachable
      along field edges. */
  method FieldReferences(heap: Partitions, scope: set<Reference>, ref: Reference, result: ReferenceSet)
    requires IsNormalHeap(heap) && ref in heap.parents && result as object != heap
    modifies result
    ensures forall m :: m in result.refs <==>
              m in old(result.refs) || IsFieldReference(heap, scope, heap.parents[ref], m)
  {
    var ht := new Traversal(heap, scope);
    ht.FieldRefs(ref, result);
    assert ht.visited - {} + {ref} == ht.visited;
    forall m ensures ht.Covers(ht.visited, m) <==> IsFieldReference(heap, scope, heap.parents[ref], m) {
      CoversAllReachable(ht, ref, m);
    }
  }

  /** Some field of the class represented by x leads to the class represented by y. */
  ghost predicate LeadsToClass(h: Heap, x: Reference, y: Reference) {
    WellFormed(h) && x in h.partitions
    && exists f <- h.partitions[x].fieldRefs :: Root(h.parents, h.partitions[x].fieldRefs[f]) == y
  }

  ghost function ClassEdge(h: Heap): Graphs.Relation<Reference> {
    (x, y) => LeadsToClass(h, x, y)
  }

  lemma SameFieldEdges(p: Partitions, h: Heap, x: Reference, y: Reference)
    requires WellFormed(h) && Targets(h) <= h.parents.Keys && AgreesWith(p, h)
    ensures PointsTo(p.partitions, x, y) <==> LeadsToClass(h, x, y)
  {
    if PointsTo(p.partitions, x, y) {
      var f :| f in p.partitions[x].fieldRefs && p.partitions[x].fieldRefs[f] == y;
      assert f in h.partitions[x].fieldRefs;
    }
    if LeadsToClass(h, x, y) {
      var f :| f in h.partitions[x].fieldRefs && Root(h.parents, h.partitions[x].fieldRefs[f]) == y;
      assert f in p.partitions[x].fieldRefs && p.partitions[x].fieldRefs[f] == y;
    }
  }

  /** The same, said of the state that was finalised. */
  ghost predicate IsReferenceInReach(h: Heap, scope: set<Reference>, ref: Reference, m: Reference)
    requires WellFormed(h)
  {
    m in h.parents && m in scope && Graphs.Reach(ClassEdge(h), Root(h.parents, ref), Root(h.parents, m))
  }

  lemma SameReferencesInReach(p: Partitions, h: Heap, scope: set<Reference>, ref: Reference, m: Reference)
    requires WellFormed(h) && Targets(h) <= h.parents.Keys && AgreesWith(p, h) && ref in h.parents
    ensures ref in p.parents
    ensures IsFieldReference(p, scope, p.parents[ref], m) <==> IsReferenceInReach(h, scope, ref, m)
  {
    forall x, y ensures FieldEdge(p.partitions)(x, y) <==> ClassEdge(h)(x, y) {
      SameFieldEdges(p, h, x, y);
    }
    hide Graphs.Reach;
    if m in h.parents {
      Graphs.ReachSameRelation(FieldEdge(p.partitions), ClassEdge(h), p.parents[ref], p.parents[m]);
    }
  }

  /** From a state whose chains are short, through the final index, to exactly the in-scope members of every class that
      field edges of the state lead to. */
  method FieldReferencesOfState(state: State, scope: set<Reference>, ref: Reference) returns (refs: set<Reference>)
    requires state.Valid() && Targets(state.Snapshot()) <= state.parents.Keys && ref in state.parents
    requires AtMostTwoHops(state.parents)
    ensures forall m :: m in refs <==> IsReferenceInReach(state.Snapshot(), scope, ref, m)
  {
    hide WellFormed, IsOptimized, AgreesWith, IsNormalHeap, IsFieldReference, IsReferenceInReach, Targets;
    hide AtMostTwoHops;
    var p := ToPartitions(state);
    AgreementIsNormal(p, state.Snapshot());
    var result := new ReferenceSet();
    SameReferencesInReach(p, state.Snapshot(), scope, ref, ref);
    FieldReferences(p, scope, ref, result);
    refs := result.refs;
    forall m ensures m in refs <==> IsReferenceInReach(state.Snapshot(), scope, ref, m) {
      SameReferencesInReach(p, state.Snapshot(), scope, ref, m);
    }
  }

  lemma CoversAllReachable(ht: Traversal, ref: Reference, m: Reference)
    requires ht.Valid() && ref in ht.visited
    requires forall x <- ht.visited :: ht.LeadsTo(ref, x) && ht.IsExpanded(ht.visited, x)
    ensures ht.Covers(ht.visited, m) <==> IsFieldReference(ht.heap, ht.scope, ht.heap.parents[ref], m)
  {
    var h := ht.heap;
    if IsFieldReference(h, ht.scope, h.parents[ref], m) {
      var reps := set x | x in ht.visited :: h.parents[x];
      assert h.parents[ref] in reps;
      forall x, y | x in reps && FieldEdge(h.partitions)(x, y) ensures y in reps {
        var v :| v in ht.visited && h.parents[v] == x;
        assert ht.IsExpanded(ht.visited, v) && PointsTo(h.partitions, x, y);
        assert h.parents[y] == y;
      }
      Graphs.ClosedKeepsReach(FieldEdge(h.partitions), reps, h.parents[ref], h.parents[m]);
      var x :| x in ht.visited && h.parents[x] == h.parents[m];
      assert ht.IsMemberOf(x, m);
    }
    if ht.Covers(ht.visited, m) {
      var x :| x in ht.visited && ht.IsMemberOf(x, m);
      assert ht.LeadsTo(ref, x);
    }
  }

  // ---- functions around a function ----

  /** A call graph: the callees and the callers of every node; a function may have no node. */
  datatype Node = Node(callees: seq<Function>, callers: seq<Function>)

  type CallGraph = map<Function, Node>

  /** A call edge in either direction, as the node lists it. */
  predicate IsNeighbour(cg: CallGraph, f: Function, g: Function) {
    f in cg && (g in cg[f].callees || g in cg[f].callers)
  }

  function Calls(cg: CallGraph): Graphs.Relation<Function> {
    (f, g) => IsNeighbour(cg, f, g)
  }

  // ---- the same, said of the lists of the graph ----

  /** A list of functions, each of which calls the next or is called by it. */
  ghost predicate IsCallPath(cg: CallGraph, f: Function, path: seq<Function>, g: Function) {
    && path != [] && path[0] == f && path[|path| - 1] == g
    && forall i | 0 <= i < |path| - 1 ::
         path[i] in cg && (path[i + 1] in cg[path[i]].callees || path[i + 1] in cg[path[i]].callers)
  }

  /** Fewer than depth calls lead from f to g. */
  ghost predicate IsCloseTo(cg: CallGraph, f: Function, g: Function, depth: nat) {
    exists path :: IsCallPath(cg, f, path, g) && |path| <= depth
  }

  ghost predicate HoldsNeighbours(cg: CallGraph, fns: set<Function>) {
    forall f, g | f in fns && f in cg && (g in cg[f].callees || g in cg[f].callers) :: g in fns
  }

  /** The smallest set around f that holds the callees and callers of its members. */
  ghost predicate IsComponentOf(cg: CallGraph, f: Function, fns: set<Function>) {
    && f in fns && HoldsNeighbours(cg, fns)
    && forall more | f in more && HoldsNeighbours(cg, more) :: fns <= more
  }

  lemma CloseIff(cg: CallGraph, f: Function, g: Function, depth: nat)
    ensures Within(cg, f, g, depth) <==> IsCloseTo(cg, f, g, depth)
  {
    if walk :| Graphs.WalkFrom(Calls(cg), f, walk, g) && |walk| <= depth {
      forall i | 0 <= i < |walk| - 1
        ensures walk[i] in cg && (walk[i + 1] in cg[walk[i]].callees || walk[i + 1] in cg[walk[i]].callers)
      {
        assert Calls(cg)(walk[i], walk[i + 1]);
      }
      assert IsCallPath(cg, f, walk, g);
    }
    if path :| IsCallPath(cg, f, path, g) && |path| <= depth {
      assert Graphs.WalkFrom(Calls(cg), f, path, g);
    }
  }

  lemma ComponentIff(cg: CallGraph, f: Function, fns: set<Function>)
    requires forall g :: g in fns <==> Graphs.Reach(Calls(cg), f, g)
    ensures IsComponentOf(cg, f, fns)
  {
    Graphs.ReachSelf(Calls(cg), f);
    forall x, y | x in fns && IsNeighbour(cg, x, y) ensures y in fns {
      Graphs.ReachByEdge(Calls(cg), f, x, y);
    }
    forall more | f in more && HoldsNeighbours(cg, more) ensures fns <= more {
      forall g <- fns ensures g in more {
        Graphs.ClosedKeepsReach(Calls(cg), more, f, g);
      }
    }
  }

  /** Some undirected call path from f to g has fewer than depth edges. */
  ghost predicate Within(cg: CallGraph, f: Function, g: Function, depth: nat) {
    exists walk :: Graphs.WalkFrom(Calls(cg), f, walk, g) && |walk| <= depth
  }

  class FunctionSet {
    var fns: set<Function>

    constructor ()
      ensures fns == {}
    {
      fns := {};
    }

    /** Adds functions fewer than depth calls away from fn. If depth is at least the number of missing functions in some
        closed set around fn, every function added has all its neighbours added as well. */
    method AddReachable(fn: Function, cg: CallGraph, depth: nat, ghost around: set<Function>)
      requires fn in around && Graphs.IsClosed(Calls(cg), around)
      modifies this
      ensures old(fns) <= fns && fns - old(fns) <= around
      ensures forall g <- fns - old(fns) :: Within(cg, fn, g, depth)
      ensures depth > 0 ==> fn in fns
      ensures |around - old(fns)| <= depth ==> fn in fns && forall g <- fns - old(fns) :: Surrounds(cg, fns, g)
      decreases depth, 0
    {
      hide Within, Surrounds, NextTo, IsNeighbour, Graphs.IsClosed;
      if depth <= 0 || fn in fns {
        NothingMissing(around, fns, fn, depth);
        return;
      }
      fns := fns + {fn};
      WithinItself(cg, fn, depth);
      Fewer(around, old(fns), fn);
      SurroundedByLists(cg, fn);
      if fn !in cg {
        return;
      }
      var node := cg[fn];
      AddAll(fn, node.callees, cg, depth - 1, around);
      ghost var mid := fns;
      NoMoreMissing(around, old(fns) + {fn}, mid);
      AddAll(fn, node.callers, cg, depth - 1, around);
      SurroundedBySubset(cg, mid, fns);
      if |around - old(fns)| <= depth {
        assert forall g <- node.callees + node.callers :: g in fns;
        assert Surrounds(cg, fns, fn);
      }
      forall g <- fns - old(fns) ensures Within(cg, fn, g, depth) {
        if g != fn {
          ThroughNeighbour(cg, fn, g, depth);
        }
      }
    }

    /** One of the two loops: visits the listed neighbours of fn in turn. */
    method AddAll(ghost fn: Function, list: seq<Function>, cg: CallGraph, depth: nat, ghost around: set<Function>)
      requires fn in around && Graphs.IsClosed(Calls(cg), around)
      requires forall g <- list :: IsNeighbour(cg, fn, g)
      modifies this
      ensures old(fns) <= fns && fns - old(fns) <= around
      ensures forall g <- fns - old(fns) :: NextTo(cg, fn, g, depth)
      ensures |around - old(fns)| <= depth ==>
                (forall g <- list :: g in fns) && forall g <- fns - old(fns) :: Surrounds(cg, fns, g)
      decreases depth, 1
    {
      hide Within;
      for i := 0 to |list|
        invariant old(fns) <= fns && fns - old(fns) <= around
        invariant forall g <- fns - old(fns) :: NextTo(cg, fn, g, depth)
        invariant |around - old(fns)| <= depth ==>
          (forall g <- list[..i] :: g in fns) && forall g <- fns - old(fns) :: Surrounds(cg, fns, g)
      {
        ghost var before := fns;
        assert list[i] in list && Calls(cg)(fn, list[i]);
        NoMoreMissing(around, old(fns), before);
        AddReachable(list[i], cg, depth, around);
        SurroundedBySubset(cg, before, fns);
      }
    }
  }

  /** All neighbours of f are in the set. */
  ghost predicate Surrounds(cg: CallGraph, fns: set<Function>, f: Function) {
    forall g | IsNeighbour(cg, f, g) :: g in fns
  }

  lemma SurroundedByLists(cg: CallGraph, f: Function)
    ensures f !in cg ==> forall fns :: Surrounds(cg, fns, f)
    ensures f in cg ==> forall g <- cg[f].callees + cg[f].callers :: IsNeighbour(cg, f, g)
    ensures f in cg ==> forall fns {:trigger Surrounds(cg, fns, f)} ::
              (forall g <- cg[f].callees + cg[f].callers :: g in fns) ==> Surrounds(cg, fns, f)
  {
  }

  lemma SurroundedBySubset(cg: CallGraph, fns: set<Function>, more: set<Function>)
    requires fns <= more
    ensures forall f | Surrounds(cg, fns, f) :: Surrounds(cg, more, f)
  {
  }

  /** g is fewer than depth calls away from some neighbour of fn. */
  ghost predicate NextTo(cg: CallGraph, fn: Function, g: Function, depth: nat) {
    exists n :: IsNeighbour(cg, fn, n) && Within(cg, n, g, depth)
  }

  lemma ThroughNeighbour(cg: CallGraph, fn: Function, g: Function, depth: nat)
    requires depth > 0 && NextTo(cg, fn, g, depth - 1)
    ensures Within(cg, fn, g, depth)
  {
    var n :| IsNeighbour(cg, fn, n) && Within(cg, n, g, depth - 1);
    var w :| Graphs.WalkFrom(Calls(cg), n, w, g) && |w| <= depth - 1;
    assert Graphs.WalkFrom(Calls(cg), fn, [fn] + w, g);
  }

  lemma WithinItself(cg: CallGraph, fn: Function, depth: nat)
    requires depth > 0
    ensures Within(cg, fn, fn, depth)
  {
    assert Graphs.WalkFrom(Calls(cg), fn, [fn], fn);
  }

  /** Only fn itself is fewer than one call away. */
  lemma WithinOne(cg: CallGraph, fn: Function, g: Function, depth: nat)
    requires Within(cg, fn, g, depth)
    ensures depth > 0 && (depth == 1 ==> g == fn)
  {
  }

  lemma NothingMissing(around: set<Function>, fns: set<Function>, fn: Function, depth: nat)
    requires fn in around && (depth == 0 || fn in fns)
    ensures |around - fns| <= depth ==> fn in fns
  {
    if fn !in fns {
      assert fn in around - fns;
    }
  }

  lemma Fewer(around: set<Function>, fns: set<Function>, fn: Function)
    requires fn in around - fns
    ensures |around - (fns + {fn})| == |around - fns| - 1
  {
    assert around - (fns + {fn}) == (around - fns) - {fn};
  }

  lemma NoMoreMissing(around: set<Function>, fns: set<Function>, more: set<Function>)
    requires fns <= more
    ensures |around - more| <= |around - fns|
  {
    assert around - fns == (around - more) + ((around - fns) - (around - more));
  }

  /** From an empty result with a depth of at least the number of functions of the connected component (the functions
      that undirected calls lead to), exactly the component is returned; for any depth, nothing further than depth - 1
      calls away. */
  method BoundedReachableFunctions(fn: Function, cg: CallGraph, depth: nat, ghost component: set<Function>)
    returns (result: set<Function>)
    requires forall g :: g in component <==> Graphs.Reach(Calls(cg), fn, g)
    ensures forall g <- result :: Within(cg, fn, g, depth) && IsCloseTo(cg, fn, g, depth)
    ensures depth >= |component| ==> result == component && IsComponentOf(cg, fn, result)
    ensures depth == 0 ==> result == {}
    ensures depth == 1 ==> result == {fn}
  {
    var s := new FunctionSet();
    Graphs.ReachSelf(Calls(cg), fn);
    forall x, y | x in component && Calls(cg)(x, y) ensures y in component {
      Graphs.ReachByEdge(Calls(cg), fn, x, y);
    }
    assert component - s.fns == component;
    s.AddReachable(fn, cg, depth, component);
    result := s.fns;
    forall g | Within(cg, fn, g, depth) ensures depth > 0 && (depth == 1 ==> g == fn) {
      WithinOne(cg, fn, g, depth);
    }
    forall g <- result ensures IsCloseTo(cg, fn, g, depth) {
      CloseIff(cg, fn, g, depth);
    }
    ComponentIff(cg, fn, component);
    if depth >= |component| {
      forall x, y | x in result && Calls(cg)(x, y) ensures y in result {
        assert Surrounds(cg, result, x);
      }
      forall g <- component ensures g in result {
        Graphs.ClosedKeepsReach(Calls(cg), result, fn, g);
      }
    }
  }
}
