/** The mutable state of the pointer analysis (internal/pkg/earpointer/state.go). */
module EarState {
  import opened References
  import opened UnionFind
  import opened AbstractHeap

  /** What a failed lookup does. */
  datatype OnFailure =
    | CreateEntry        // Insert: a new partition
    | InsertDynamically  // representative: call Insert
    | ReportMissing      // the recursive lookup of a parent: log, and answer nil

  /** Two field maps that met, and the parent links at that time. */
  datatype Merge = Merge(parents: ParentMap, absorbed: FieldMap, kept: FieldMap)

  ghost predicate LosesNothing(m: Merge) {
    IsForest(m.parents) && Functional(m.parents, m.absorbed, m.kept)
  }

  ghost predicate AllFunctional(merges: seq<Merge>) {
    forall m <- merges :: LosesNothing(m)
  }

  ghost predicate Extends(merges: seq<Merge>, more: seq<Merge>) {
    merges <= more
  }

  lemma ExtendsReflexive(merges: seq<Merge>)
    ensures Extends(merges, merges)
  {
  }

  lemma ExtendsTransitive(merges: seq<Merge>, logged: seq<Merge>, more: seq<Merge>)
    requires Extends(merges, logged) && Extends(logged, more)
    ensures Extends(merges, more)
  {
  }

  lemma PrefixOf(merges: seq<Merge>, logged: seq<Merge>, more: seq<Merge>)
    requires |logged| > 0 && logged[..|logged| - 1] == merges
    requires Extends(logged, more)
    ensures Extends(merges, more)
  {
  }

  lemma AllFunctionalAppend(merges: seq<Merge>, m: Merge)
    ensures AllFunctional(merges + [m]) <==> AllFunctional(merges) && LosesNothing(m)
  {
    assert m in merges + [m] && forall x <- merges :: x in merges + [m];
  }

  class State {
    var partitions: PartitionInfoMap
    var parents: ParentMap

    /** History: the field maps of every two partitions that were merged. */
    ghost var merges: seq<Merge>

    ghost function Snapshot(): Heap
      reads this
    {
      Heap(parents, partitions)
    }

    ghost predicate Valid()
      reads this
    {
      WellFormed(Snapshot()) && |parents| == |partitions| + |merges|
    }

    /** No merge so far overwrote a pair of its work list that made a difference. */
    ghost predicate Lossless()
      reads this
    {
      AllFunctional(merges)
    }

    constructor ()
      ensures Valid() && Snapshot() == EMPTY_HEAP && merges == []
    {
      partitions, parents, merges := map[], map[], [];
      new;
      assert Ranked(parents, map[]);
    }

    method LookupPartitionRep(ref: Reference, onFailure: OnFailure) returns (rep: Option<Reference>)
      requires Valid()
      modifies this
      ensures Valid() && merges == old(merges)
      ensures ref in old(parents) || !onFailure.ReportMissing? ==>
                rep == Some(Root(old(parents), ref)) && Snapshot() == Entered(old(Snapshot()), ref)
      ensures ref !in old(parents) && onFailure.ReportMissing? ==>
                rep == None && Snapshot() == old(Snapshot())
      decreases Depth(parents, ref), if onFailure.InsertDynamically? then 2 else 0
    {
      EnteredHeap(Snapshot(), ref);
      if ref !in parents {
        match onFailure
        case CreateEntry =>
          parents := parents[ref := ref];
          partitions := partitions[ref := PartitionInfo(1, map[])];
          rep := Some(ref);
        case InsertDynamically =>
          var _ := Insert(ref);
          rep := Some(ref);
        case ReportMissing =>
          rep := None;
        return;
      }
      var parent := parents[ref];
      if parent == ref {
        return Some(ref);
      }
      ParentIsHigher(parents, ref);
      CompressKeepsRoots(parents, parent);
      rep := LookupPartitionRep(parent, ReportMissing);
      parents := parents[ref := rep.value];
    }

    method Insert(ref: Reference) returns (rep: Reference)
      requires Valid()
      modifies this
      ensures Valid() && merges == old(merges)
      ensures rep == Root(old(parents), ref) && Snapshot() == Entered(old(Snapshot()), ref)
      decreases Depth(parents, ref), 1
    {
      var found := LookupPartitionRep(ref, CreateEntry);
      rep := found.value;
    }

    method Representative(ref: Reference) returns (rep: Reference)
      requires Valid()
      modifies this
      ensures Valid() && merges == old(merges)
      ensures rep == Root(old(parents), ref) && Snapshot() == Entered(old(Snapshot()), ref)
    {
      var found := LookupPartitionRep(ref, InsertDynamically);
      rep := found.value;
    }

    method Unify(ref1: Reference, ref2: Reference)
      requires Valid()
      modifies this
      ensures Valid() && Extends(old(merges), merges) && (Lossless() ==> old(Lossless()))
      ensures Step(old(Snapshot()), {(ref1, ref2)}, {}, Snapshot(), Lossless())
      ensures Unified(EnteredBoth(old(Snapshot()), ref1, ref2),
                      Root(old(parents), ref1), Root(old(parents), ref2), Snapshot(), Lossless())
      ensures old(Lossless()) && Separable(old(Snapshot()), {(ref1, ref2)}, {}) ==> Lossless()
      ensures old(Lossless()) && ShareNoField(old(Snapshot()), ref1, ref2) ==> Lossless()
      decreases Heads(Snapshot(), {ref1, ref2}), 2
    {
      hide Step, Unified, Separable, ShareNoField;
      ghost var h := Snapshot();
      ghost var both := EnteredBoth(h, ref1, ref2);
      EnteredHeap(h, ref1);
      var rep1 := Representative(ref1);
      var rep2 := Representative(ref2);
      assert Snapshot() == both;
      UnifyHeads(h, ref1, ref2);
      UnifySeparable(h, ref1, ref2);
      UnifyShares(h, ref1, ref2);
      UnifyReps(rep1, rep2);
      UnifyStep(h, ref1, ref2, Snapshot(), Lossless());
    }

    /** Both arguments must be representatives, as the source demands. */
    method UnifyReps(ref1: Reference, ref2: Reference)
      requires Valid() && ref1 in partitions && ref2 in partitions
      modifies this
      ensures Valid() && Extends(old(merges), merges) && (Lossless() ==> old(Lossless()))
      ensures Step(old(Snapshot()), {(ref1, ref2)}, {}, Snapshot(), Lossless())
      ensures Unified(old(Snapshot()), ref1, ref2, Snapshot(), Lossless())
      ensures if ref1 == ref2 then merges == old(merges)
              else Extends(old(merges) + [MergeOf(old(Snapshot()), ref1, ref2)], merges)
      ensures old(Lossless()) && Separable(old(Snapshot()), {(ref1, ref2)}, {}) ==> Lossless()
      ensures old(Lossless()) && ShareNoField(old(Snapshot()), ref1, ref2) ==> Lossless()
      decreases Heads(Snapshot(), {ref1, ref2}), 1
    {
      OrientedReps(Snapshot(), ref1, ref2);
      hide Step, IsWorkList, Functional, WellFormed, Linked, Unified, Universe, AllFunctional, Extends;
      hide Separable, ShareNoField;
      ghost var h, before := Snapshot(), Lossless();
      if ref1 == ref2 {
        UnifyNothing(h, ref1, Lossless());
        return;
      }
      var prep1, prep2 := ref1, ref2;
      // Copies of the partition entries: assigning to their sizes and field maps stores nothing.
      var pinfo1, pinfo2 := partitions[prep1], partitions[prep2];
      var n1, n2 := pinfo1.numMembers, pinfo2.numMembers;
      if n1 > n2 || (n1 == n2 && prep1.Value().pos > prep2.Value().pos) {
        prep1, prep2 := prep2, prep1;
        pinfo1, pinfo2 := pinfo2, pinfo1;
      }
      assert (prep1, prep2) == Oriented(ref1, ref2) && pinfo1 == partitions[prep1];
      parents := parents[prep1 := prep2];
      var fmap1 := pinfo1.fieldRefs;
      pinfo1 := pinfo1.(fieldRefs := map[]);
      partitions := partitions - {prep1};
      pinfo2 := pinfo2.(numMembers := pinfo2.numMembers + pinfo1.numMembers);
      ghost var logged := merges + [Merge(h.parents, fmap1, partitions[prep2].fieldRefs)];
      AllFunctionalAppend(merges, MergeOf(h, ref1, ref2));
      merges := logged;
      ghost var kept := Lossless();
      LinkOnly(h, prep1, prep2, Snapshot());
      ghost var linked := Snapshot();
      ghost var work := MergeFieldMap(fmap1, prep2);
      UnifyRepsOutcome(h, ref1, ref2, linked, work, Snapshot(), before, kept, Lossless());
      PrefixOf(old(merges), logged, merges);
    }

    /** Merges oldMap into the field map of representative rep. The source passes that map itself and
        writes through it; here it is named by its owner. */
    method MergeFieldMap(oldMap: FieldMap, rep: Reference) returns (ghost work: map<Reference, Reference>)
      requires Valid() && rep in partitions
      modifies this
      ensures Valid() && Extends(old(merges), merges) && (Lossless() ==> old(Lossless()))
      ensures IsWorkList(work, oldMap, old(partitions[rep].fieldRefs))
      ensures Step(WithFields(old(Snapshot()), rep, oldMap), WorkPairs(work), {}, Snapshot(), Lossless())
      ensures work == map[] ==> Snapshot() == WithFields(old(Snapshot()), rep, oldMap) && merges == old(merges)
      ensures old(Lossless()) && Separable(WithFields(old(Snapshot()), rep, oldMap), WorkPairs(work), {}) ==> Lossless()
      decreases Heads(Snapshot(), oldMap.Values), 3
    {
      hide Step, IsWorkList, AllFunctional, Extends, Separable;
      ExtendsReflexive(merges);
      ghost var h := Snapshot();
      var newMap, toUnify := CollectWork(oldMap, partitions[rep].fieldRefs);
      partitions := partitions[rep := partitions[rep].(fieldRefs := newMap)];
      work := toUnify;
      ghost var mid := Snapshot();
      WithFieldsHeap(h, rep, oldMap);
      EmptyStep(mid, Lossless());
      assert PairsFrom(work, {}) == {};
      var rest := toUnify.Keys;
      assert work.Keys - rest == {};
      while rest != {}
        invariant rest <= work.Keys
        invariant Valid() && Extends(old(merges), merges) && (Lossless() ==> old(Lossless()))
        invariant Step(mid, PairsFrom(work, work.Keys - rest), {}, Snapshot(), Lossless())
        invariant work == map[] ==> Snapshot() == mid && merges == old(merges)
        invariant old(Lossless()) && Separable(mid, WorkPairs(work), {}) ==> Lossless()
        decreases rest
      {
        var k :| k in rest;
        ghost var now, kept, logged := Snapshot(), Lossless(), merges;
        MergeHeads(h, rep, oldMap, work, work.Keys - rest, now, kept, k);
        MergeSeparable(mid, work, work.Keys - rest, now, kept, k);
        Unify(k, toUnify[k]);
        MergeRound(mid, work, rest, now, kept, k, Snapshot(), Lossless());
        ExtendsTransitive(old(merges), logged, merges);
        rest := rest - {k};
      }
      assert PairsFrom(work, work.Keys - rest) == WorkPairs(work);
    }
  }

  /** The field maps that meet when two distinct representatives are unified. */
  ghost function MergeOf(h: Heap, r1: Reference, r2: Reference): Merge
    requires r1 in h.partitions && r2 in h.partitions
  {
    var (a, b) := Oriented(r1, r2);
    Merge(h.parents, h.partitions[a].fieldRefs, h.partitions[b].fieldRefs)
  }

  /** The first loop of mergeFieldMap, for any iteration order of the map: copies what is missing and lists what is
      shared. */
  method CollectWork(oldMap: FieldMap, newMap: FieldMap) returns (merged: FieldMap, toUnify: map<Reference, Reference>)
    ensures merged == oldMap + newMap
    ensures IsWorkList(toUnify, oldMap, newMap)
  {
    merged, toUnify := newMap, map[];
    var rest := oldMap.Keys;
    while rest != {}
      invariant rest <= oldMap.Keys
      invariant merged.Keys == newMap.Keys + (oldMap.Keys - rest)
      invariant forall k <- merged :: merged[k] == if k in newMap then newMap[k] else oldMap[k]
      invariant forall k | k in oldMap && k in newMap && k !in rest :: oldMap[k] in toUnify
      invariant forall v <- toUnify :: exists k <- oldMap :: k in newMap && oldMap[k] == v && newMap[k] == toUnify[v]
      decreases rest
    {
      var k :| k in rest;
      var v := oldMap[k];
      if k !in merged {
        merged := merged[k := v];
      } else {
        assert k in newMap;
        toUnify := toUnify[v := merged[k]];
      }
      rest := rest - {k};
    }
  }

  lemma UnifyHeads(h: Heap, ref1: Reference, ref2: Reference)
    requires WellFormed(h)
    ensures Heads(EnteredBoth(h, ref1, ref2), {Root(h.parents, ref1), Root(h.parents, ref2)}) <= Heads(h, {ref1, ref2})
  {
  }

  lemma UnifyStep(h: Heap, ref1: Reference, ref2: Reference, h': Heap, lossless: bool)
    requires WellFormed(h)
    requires Step(EnteredBoth(h, ref1, ref2), {(Root(h.parents, ref1), Root(h.parents, ref2))}, {}, h', lossless)
    ensures Step(h, {(ref1, ref2)}, {}, h', lossless)
  {
    hide Step;
    var r1, r2 := Root(h.parents, ref1), Root(h.parents, ref2);
    EquationsThen(h, {(ref1, ref1)} + {(ref2, ref2)}, EnteredBoth(h, ref1, ref2), true, {(r1, r2)}, h', lossless);
    UnifyRestated(h, ref1, ref2, h', lossless);
  }

  ghost function RestatedPairs(h: Heap, ref1: Reference, ref2: Reference): set<Pair>
    requires WellFormed(h)
  {
    {(ref1, ref1)} + {(ref2, ref2)} + {(Root(h.parents, ref1), Root(h.parents, ref2))}
  }

  lemma UnifyRestated(h: Heap, ref1: Reference, ref2: Reference, h': Heap, lossless: bool)
    requires WellFormed(h)
    requires Step(h, RestatedPairs(h, ref1, ref2), {}, h', lossless)
    ensures Step(h, {(ref1, ref2)}, {}, h', lossless)
  {
    var P := RestatedPairs(h, ref1, ref2);
    var r1, r2 := Root(h.parents, ref1), Root(h.parents, ref2);
    assert (r1, r2) in P;
    assert Root(h'.parents, r1) == Root(h'.parents, ref1) && Root(h'.parents, r2) == Root(h'.parents, ref2);
    forall L | Obeys(L, h, {(ref1, ref2)}, {}) ensures Identifies(L, P) {
      UnifyForced(h, ref1, ref2, L);
    }
    UnifyMentions(h, ref1, ref2);
    StepReframe(h, P, {}, h', lossless, {(ref1, ref2)}, {});
  }

  lemma UnifyForced(h: Heap, ref1: Reference, ref2: Reference, L: Classes)
    requires WellFormed(h) && Obeys(L, h, {(ref1, ref2)}, {})
    ensures Identifies(L, RestatedPairs(h, ref1, ref2))
  {
    assert (ref1, ref2) in {(ref1, ref2)};
    assert L(Root(h.parents, ref1)) == L(ref1) && L(Root(h.parents, ref2)) == L(ref2);
  }

  lemma UnifyMentions(h: Heap, ref1: Reference, ref2: Reference)
    requires WellFormed(h)
    ensures Mentioned(RestatedPairs(h, ref1, ref2), {}) <= Universe(h) + Mentioned({(ref1, ref2)}, {})
  {
    var r1, r2 := Root(h.parents, ref1), Root(h.parents, ref2);
    MentionedUnion({(ref1, ref1)} + {(ref2, ref2)}, {}, {(r1, r2)}, {});
    MentionedUnion({(ref1, ref1)}, {}, {(ref2, ref2)}, {});
    MentionedPair(ref1, ref1);
    MentionedPair(ref2, ref2);
    MentionedPair(r1, r2);
    MentionedPair(ref1, ref2);
  }

  lemma OrientedReps(h: Heap, r1: Reference, r2: Reference)
    requires WellFormed(h) && r1 in h.partitions && r2 in h.partitions
    ensures h.partitions[r1].numMembers == h.partitions[r2].numMembers == 1
    ensures r1 != r2 ==> var (a, b) := Oriented(r1, r2); Mergeable(h, a, b)
    ensures r1 in h.parents && r2 in h.parents
  {
  }

  /** After a unification, of two representatives the one that lies earlier in the source is absorbed, the first one on
      a tie. */
  lemma EarlierIsAbsorbed(h: Heap, r1: Reference, r2: Reference, h': Heap, lossless: bool)
    requires WellFormed(h) && Unified(h, r1, r2, h', lossless) && r1 != r2
    ensures WellFormed(h') && (if r1.Pos() <= r2.Pos() then r1 else r2) !in h'.partitions
  {
    var (a, b) := Oriented(r1, r2);
    var work :| Step(Linked(h, a, b), WorkPairs(work), {}, h', lossless);
    assert !IsHead(Linked(h, a, b).parents, a);
    assert !IsHead(h'.parents, a);
  }

  lemma UnifyNothing(h: Heap, r: Reference, lossless: bool)
    requires WellFormed(h) && r in h.parents
    ensures Step(h, {(r, r)}, {}, h, lossless)
  {
    QuietStep(h, r, h);
    StepWeaken(h, {(r, r)}, {}, h, true, lossless);
  }

  ghost function PairsFrom(work: map<Reference, Reference>, done: set<Reference>): set<Pair>
    requires done <= work.Keys
  {
    set v | v in done :: (v, work[v])
  }

  /** The field map of rep extended by what only m has. */
  ghost function WithFields(h: Heap, rep: Reference, m: FieldMap): Heap
    requires rep in h.partitions
  {
    var info := h.partitions[rep];
    h.(partitions := h.partitions[rep := info.(fieldRefs := m + info.fieldRefs)])
  }

  lemma WithFieldsHeap(h: Heap, rep: Reference, m: FieldMap)
    requires WellFormed(h) && rep in h.partitions
    ensures WellFormed(WithFields(h, rep, m))
    ensures Universe(WithFields(h, rep, m)) <= Universe(h) + m.Values
    ensures |WithFields(h, rep, m).partitions| == |h.partitions|
  {
    var h' := WithFields(h, rep, m);
    forall e <- Edges(h') ensures e.target in Universe(h) + m.Values {
      InEdges(h, e);
      InEdges(h', e);
    }
    assert h'.partitions.Keys == h.partitions.Keys;
  }

  /** Linking without the fields, as unifyReps does before it calls mergeFieldMap. */
  lemma LinkOnly(h: Heap, a: Reference, b: Reference, g: Heap)
    requires Mergeable(h, a, b) && g == Heap(h.parents[a := b], h.partitions - {a})
    ensures WellFormed(g)
    ensures WithFields(g, b, h.partitions[a].fieldRefs) == Linked(h, a, b)
    ensures |g.parents| == |h.parents| && |g.partitions| == |h.partitions| - 1
    ensures Heads(g, h.partitions[a].fieldRefs.Values) < Heads(h, {a, b})
  {
    LinkedHeap(h, a, b, a);
    assert WithFields(g, b, h.partitions[a].fieldRefs) == Linked(h, a, b);
    assert g.parents.Keys == h.parents.Keys;
    assert g.partitions.Keys == h.partitions.Keys - {a};
    LinkOnlyHeads(h, a, b, g);
  }

  lemma LinkOnlyHeads(h: Heap, a: Reference, b: Reference, g: Heap)
    requires Mergeable(h, a, b) && g == Heap(h.parents[a := b], h.partitions - {a})
    ensures Heads(g, h.partitions[a].fieldRefs.Values) < Heads(h, {a, b})
  {
    var m := h.partitions[a].fieldRefs;
    forall t <- m.Values ensures t in Universe(h) {
      var f :| f in m && m[f] == t;
      assert Edge(a, f, t) in Edges(h);
    }
    forall e <- Edges(g) ensures e.target in Universe(h) {
      InEdges(h, e);
      InEdges(g, e);
    }
    assert a in Heads(h, {a, b});
    assert a !in Heads(g, m.Values);
  }

  lemma MentionedFrom(work: map<Reference, Reference>, done: set<Reference>)
    requires done <= work.Keys
    ensures Mentioned(PairsFrom(work, done), {}) <= work.Keys + work.Values
  {
  }

  lemma WorkMentions(h: Heap, rep: Reference, oldMap: FieldMap, work: map<Reference, Reference>)
    requires rep in h.partitions && IsWorkList(work, oldMap, h.partitions[rep].fieldRefs)
    ensures work.Keys + work.Values <= Universe(h) + oldMap.Values
  {
    forall v | v in work ensures v in oldMap.Values && work[v] in Universe(h) {
      var f :| f in oldMap && f in h.partitions[rep].fieldRefs
        && oldMap[f] == v && h.partitions[rep].fieldRefs[f] == work[v];
      assert Edge(rep, f, work[v]) in Edges(h);
    }
  }

  lemma MergeHeads(h: Heap, rep: Reference, oldMap: FieldMap, work: map<Reference, Reference>, done: set<Reference>,
                   now: Heap, lossless: bool, k: Reference)
    requires WellFormed(h) && rep in h.partitions && WellFormed(WithFields(h, rep, oldMap))
    requires IsWorkList(work, oldMap, h.partitions[rep].fieldRefs) && done <= work.Keys && k in work
    requires Step(WithFields(h, rep, oldMap), PairsFrom(work, done), {}, now, lossless)
    ensures Heads(now, {k, work[k]}) <= Heads(h, oldMap.Values)
  {
    var mid := WithFields(h, rep, oldMap);
    WithFieldsHeap(h, rep, oldMap);
    MentionedFrom(work, done);
    WorkMentions(h, rep, oldMap, work);
    var extra := Universe(h) + oldMap.Values;
    assert work.Keys + work.Values + {k, work[k]} <= extra;
    StepHeads(mid, PairsFrom(work, done), {}, now, lossless, extra, {k, work[k]});
    assert Heads(mid, extra) <= Heads(h, oldMap.Values);
  }

  lemma MergeRound(mid: Heap, work: map<Reference, Reference>, rest: set<Reference>, now: Heap, kept: bool,
                   k: Reference, after: Heap, lossless: bool)
    requires k in rest && rest <= work.Keys && (lossless ==> kept)
    requires Step(mid, PairsFrom(work, work.Keys - rest), {}, now, kept)
    requires Step(now, {(k, work[k])}, {}, after, lossless)
    ensures Step(mid, PairsFrom(work, work.Keys - (rest - {k})), {}, after, lossless)
  {
    hide Step;
    EquationsThen(mid, PairsFrom(work, work.Keys - rest), now, kept, {(k, work[k])}, after, lossless);
    assert PairsFrom(work, work.Keys - rest) + {(k, work[k])} == PairsFrom(work, work.Keys - (rest - {k}));
  }

  lemma UnifyRepsStep(h: Heap, r1: Reference, r2: Reference, linked: Heap, work: map<Reference, Reference>, h': Heap,
                      lossless: bool)
    requires WellFormed(h) && r1 in h.partitions && r2 in h.partitions && r1 != r2
    requires var (a, b) := Oriented(r1, r2);
      var fa, fb := h.partitions[a].fieldRefs, h.partitions[b].fieldRefs;
      && b in linked.partitions && WithFields(linked, b, fa) == Linked(h, a, b)
      && IsWorkList(work, fa, fb)
      && Step(WithFields(linked, b, fa), WorkPairs(work), {}, h', lossless)
      && (work == map[] ==> h' == WithFields(linked, b, fa))
      && (lossless ==> Functional(h.parents, fa, fb))
    ensures Unified(h, r1, r2, h', lossless)
    ensures Step(h, {(r1, r2)}, {}, h', lossless)
  {
    var (a, b) := Oriented(r1, r2);
    AbsorbStep(h, a, b, work, h', lossless);
    if a != r1 {
      StepSymmetric(h, a, b, h', lossless);
    }
  }

  // ---- where nothing is lost ----

  lemma UnifySeparable(h: Heap, ref1: Reference, ref2: Reference)
    requires WellFormed(h)
    ensures Separable(h, {(ref1, ref2)}, {}) ==>
              Separable(EnteredBoth(h, ref1, ref2), {(Root(h.parents, ref1), Root(h.parents, ref2))}, {})
  {
    hide Step, Separable;
    if Separable(h, {(ref1, ref2)}, {}) {
      forall L | Obeys(L, h, {(ref1, ref2)}, {})
        ensures Identifies(L, RestatedPairs(h, ref1, ref2)) && Justified(L, {}, Edges(h) + {})
      {
        UnifyForced(h, ref1, ref2, L);
      }
      SeparableReframe(h, RestatedPairs(h, ref1, ref2), {}, {(ref1, ref2)}, {});
      var none: set<Edge> := {};
      assert none + none == none;
      SeparableAfter(h, {(ref1, ref1)} + {(ref2, ref2)}, {}, EnteredBoth(h, ref1, ref2), true,
                     {(Root(h.parents, ref1), Root(h.parents, ref2))}, {});
    }
  }

  lemma SeparableSymmetric(h: Heap, a: Reference, b: Reference)
    requires Separable(h, {(a, b)}, {})
    ensures Separable(h, {(b, a)}, {})
  {
    forall L | Obeys(L, h, {(a, b)}, {}) ensures Identifies(L, {(b, a)}) && Justified(L, {}, Edges(h) + {}) {
      assert (a, b) in {(a, b)};
    }
    SeparableReframe(h, {(b, a)}, {}, {(a, b)}, {});
  }

  lemma UnifyRepsSeparable(h: Heap, r1: Reference, r2: Reference, linked: Heap, work: map<Reference, Reference>)
    requires WellFormed(h) && r1 in h.partitions && r2 in h.partitions && r1 != r2
    requires var (a, b) := Oriented(r1, r2);
      var fa, fb := h.partitions[a].fieldRefs, h.partitions[b].fieldRefs;
      b in linked.partitions && WithFields(linked, b, fa) == Linked(h, a, b) && IsWorkList(work, fa, fb)
    ensures Separable(h, {(r1, r2)}, {}) ==>
              var (a, b) := Oriented(r1, r2);
              && LosesNothing(MergeOf(h, r1, r2))
              && Separable(WithFields(linked, b, h.partitions[a].fieldRefs), WorkPairs(work), {})
  {
    hide Separable;
    var (a, b) := Oriented(r1, r2);
    if Separable(h, {(r1, r2)}, {}) {
      if a != r1 {
        SeparableSymmetric(h, r1, r2);
      }
      AbsorbSeparable(h, a, b, work);
    }
  }

  /** All that the merge of two representatives achieves. */
  lemma UnifyRepsOutcome(h: Heap, r1: Reference, r2: Reference, linked: Heap, work: map<Reference, Reference>, h': Heap,
                         before: bool, kept: bool, lossless: bool)
    requires WellFormed(h) && r1 in h.partitions && r2 in h.partitions && r1 != r2
    requires var (a, b) := Oriented(r1, r2);
      var fa, fb := h.partitions[a].fieldRefs, h.partitions[b].fieldRefs;
      && b in linked.partitions && WithFields(linked, b, fa) == Linked(h, a, b)
      && IsWorkList(work, fa, fb)
      && Step(WithFields(linked, b, fa), WorkPairs(work), {}, h', lossless)
      && (work == map[] ==> h' == WithFields(linked, b, fa))
      && (kept && Separable(WithFields(linked, b, fa), WorkPairs(work), {}) ==> lossless)
    requires kept <==> before && LosesNothing(MergeOf(h, r1, r2))
    requires (lossless ==> kept) && (kept && work == map[] ==> lossless)
    ensures Unified(h, r1, r2, h', lossless) && Step(h, {(r1, r2)}, {}, h', lossless)
    ensures before && Separable(h, {(r1, r2)}, {}) ==> lossless
    ensures before && ShareNoField(h, r1, r2) ==> lossless
  {
    hide Step, Separable, IsWorkList, Linked;
    UnifyRepsSeparable(h, r1, r2, linked, work);
    if ShareNoField(h, r1, r2) {
      UnifyRepsShares(h, r1, r2, work);
    }
    UnifyRepsStep(h, r1, r2, linked, work, h', lossless);
  }

  lemma MergeSeparable(mid: Heap, work: map<Reference, Reference>, done: set<Reference>, now: Heap, kept: bool,
                       k: Reference)
    requires done <= work.Keys && k in work && Step(mid, PairsFrom(work, done), {}, now, kept)
    ensures Separable(mid, WorkPairs(work), {}) ==> Separable(now, {(k, work[k])}, {})
  {
    hide Step, Separable;
    assert PairsFrom(work, done) + {(k, work[k])} <= WorkPairs(work);
    SeparableNext(mid, PairsFrom(work, done), {}, now, kept, {(k, work[k])}, {}, WorkPairs(work), {});
  }

  lemma UnifyShares(h: Heap, ref1: Reference, ref2: Reference)
    requires WellFormed(h)
    ensures ShareNoField(h, ref1, ref2) ==>
              ShareNoField(EnteredBoth(h, ref1, ref2), Root(h.parents, ref1), Root(h.parents, ref2))
  {
    EnteredHeap(h, ref1);
    EnteredHeap(Entered(h, ref1), ref2);
    FieldsOfRoot(EnteredBoth(h, ref1, ref2), ref1);
    FieldsOfRoot(EnteredBoth(h, ref1, ref2), ref2);
  }

  /** Classes that share no field leave nothing to unify. */
  lemma UnifyRepsShares(h: Heap, r1: Reference, r2: Reference, work: map<Reference, Reference>)
    requires WellFormed(h) && r1 in h.partitions && r2 in h.partitions && r1 != r2 && ShareNoField(h, r1, r2)
    requires var (a, b) := Oriented(r1, r2); IsWorkList(work, h.partitions[a].fieldRefs, h.partitions[b].fieldRefs)
    ensures LosesNothing(MergeOf(h, r1, r2)) && work == map[]
  {
    assert work.Keys == {};
  }
}
