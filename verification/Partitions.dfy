/** The read-only index that replaces the state once construction ends (Partitions in
    internal/pkg/earpointer/state.go). */
module EarPartitions {
  import opened References
  import opened UnionFind
  import opened AbstractHeap
  import opened EarState

  type ReferenceLists = map<Reference, seq<Reference>>

  // ---- what finalize computes ----

  ghost function Grandparent(p: ParentMap, r: Reference): Reference
    requires IsForest(p) && r in p
  {
    ParentIsHigher(p, r);
    p[p[r]]
  }

  /** The optimised parent map: the climb in finalize reads the parent of the parent once and stops there. */
  ghost predicate IsOptimized(opt: ParentMap, p: ParentMap)
    requires IsForest(p)
  {
    opt.Keys == p.Keys && forall r <- p :: opt[r] == Grandparent(p, r)
  }

  ghost predicate AtMostTwoHops(p: ParentMap)
    requires IsForest(p)
  {
    forall r <- p :: IsHead(p, Grandparent(p, r))
  }

  /** The optimised map holds representatives exactly when no parent chain has more than two hops. */
  lemma OptimizedIsExactIff(p: ParentMap, opt: ParentMap)
    requires IsForest(p) && IsOptimized(opt, p)
    ensures (forall r <- p :: opt[r] == Root(p, r)) <==> AtMostTwoHops(p)
  {
    forall r <- p ensures Root(p, Grandparent(p, r)) == Root(p, r) {
      ParentIsHigher(p, r);
    }
    if forall r <- p :: opt[r] == Root(p, r) {
      forall r <- p ensures IsHead(p, Grandparent(p, r)) {
        assert opt[r] == Root(p, r);
      }
    }
  }

  ghost function MembersOf(p: ParentMap, rep: Reference): set<Reference> {
    set r | r in p && p[r] == rep
  }

  /** Under each value of the parent map, every reference mapped to it, once. */
  ghost predicate IsMemberIndex(members: ReferenceLists, p: ParentMap) {
    && members.Keys == p.Values
    && forall rep <- members :: multiset(members[rep]) == multiset(MembersOf(p, rep))
  }

  /** Field maps with every target replaced by its parent map entry. */
  ghost predicate IsNormalized(fields: FieldMap, original: FieldMap, p: ParentMap) {
    && fields.Keys == original.Keys
    && forall f <- fields :: original[f] in p && fields[f] == p[original[f]]
  }

  /** How many of the given fields lead to t. */
  ghost function Hits(fields: FieldMap, among: set<Field>, t: Reference): nat {
    |set f | f in among && f in fields && fields[f] == t|
  }

  ghost function Occurrences(lists: ReferenceLists, t: Reference, o: Reference): nat {
    if t in lists then multiset(lists[t])[o] else 0
  }

  /** The multiset inverse of the field maps of the owners: o is listed under t once for each of its fields
      that leads to t, and t has an entry only if some field leads there. */
  ghost predicate IsReverseIndex(rev: ReferenceLists, partitions: PartitionInfoMap, owners: set<Reference>) {
    && (forall t, o :: Occurrences(rev, t, o) ==
                       if o !in owners || o !in partitions then 0
                       else Hits(partitions[o].fieldRefs, partitions[o].fieldRefs.Keys, t))
    && (forall t <- rev :: rev[t] != [])
  }

  class Partitions {
    var parents: ParentMap
    var partitions: PartitionInfoMap
    var members: ReferenceLists
    var revFields: ReferenceLists

    constructor (parents: ParentMap, partitions: PartitionInfoMap)
      ensures this.parents == parents && this.partitions == partitions
      ensures members == map[] && revFields == map[]
    {
      this.parents, this.partitions := parents, partitions;
      members, revFields := map[], map[];
    }

    /** The heap must be one whose field targets were all inserted. */
    method Finalize()
      requires WellFormed(Heap(parents, partitions)) && Targets(Heap(parents, partitions)) <= parents.Keys
      requires members == map[] && revFields == map[]
      modifies this
      ensures IsOptimized(parents, old(parents))
      ensures IsMemberIndex(members, parents)
      ensures partitions.Keys == old(partitions).Keys
      ensures forall r <- partitions :: IsNormalized(partitions[r].fieldRefs, old(partitions)[r].fieldRefs, parents)
      ensures IsReverseIndex(revFields, partitions, members.Keys)
    {
      ghost var h := Heap(parents, partitions);
      OptimizeParents();
      ConstructMembers();
      NormalizeFields(h);
      ConstructFieldParentMap();
    }

    /** Step 1: a new parent map that should lead to the representative at once. */
    method OptimizeParents()
      requires IsForest(parents)
      modifies this`parents
      ensures IsOptimized(parents, old(parents))
    {
      var optParents: ParentMap := map[];
      var rest := parents.Keys;
      while rest != {}
        invariant parents == old(parents)
        invariant rest <= parents.Keys && optParents.Keys == parents.Keys - rest
        invariant forall r <- optParents :: r in parents && optParents[r] == Grandparent(parents, r)
        decreases rest
      {
        var ref :| ref in rest;
        var parent := parents[ref];
        ParentIsHigher(parents, ref);
        if ref == parent {
          optParents := optParents[ref := ref];
        } else {
          var rep := parent;
          // The source computes up once, before the loop.
          var up := parents[rep];
          while up != rep
            invariant rep == parent || rep == up
            decreases if up != rep then 1 else 0
          {
            rep := up;
          }
          optParents := optParents[ref := rep];
        }
        rest := rest - {ref};
      }
      parents := optParents;
    }

    /** Step 2. */
    method ConstructMembers()
      requires members == map[]
      modifies this`members
      ensures IsMemberIndex(members, parents)
    {
      var rest := parents.Keys;
      ghost var seen: ParentMap := map[];
      while rest != {}
        invariant rest <= parents.Keys && seen.Keys == parents.Keys - rest
        invariant forall r <- seen :: seen[r] == parents[r]
        invariant IsMemberIndex(members, seen)
        decreases rest
      {
        var ref :| ref in rest;
        var rep := if ref == parents[ref] then ref else Representative(ref);
        AddMember(members, seen, ref, rep);
        members := Append(members, rep, ref);
        seen := seen[ref := rep];
        rest := rest - {ref};
      }
      assert seen == parents;
    }

    /** Step 3: rewrites every field entry in place. */
    method NormalizeFields(ghost h: Heap)
      requires h.partitions == partitions && Targets(h) <= parents.Keys
      modifies this`partitions
      ensures partitions.Keys == h.partitions.Keys
      ensures forall r <- partitions :: IsNormalized(partitions[r].fieldRefs, h.partitions[r].fieldRefs, parents)
    {
      var rest := partitions.Keys;
      while rest != {}
        invariant rest <= partitions.Keys && partitions.Keys == h.partitions.Keys
        invariant forall r <- partitions :: if r in rest then partitions[r] == h.partitions[r]
                                            else IsNormalized(partitions[r].fieldRefs, h.partitions[r].fieldRefs,
                                                              parents)
        decreases rest
      {
        var rep :| rep in rest;
        var fields := NormalizeFieldMap(h, rep, partitions[rep].fieldRefs);
        partitions := partitions[rep := partitions[rep].(fieldRefs := fields)];
        rest := rest - {rep};
      }
    }

    method NormalizeFieldMap(ghost h: Heap, rep: Reference, original: FieldMap) returns (fields: FieldMap)
      requires rep in h.partitions && original == h.partitions[rep].fieldRefs && Targets(h) <= parents.Keys
      ensures IsNormalized(fields, original, parents)
    {
      fields := original;
      var todo := fields.Keys;
      while todo != {}
        invariant todo <= fields.Keys && fields.Keys == original.Keys
        invariant forall f <- fields :: if f in todo then fields[f] == original[f]
                                        else original[f] in parents && fields[f] == parents[original[f]]
        decreases todo
      {
        var fd :| fd in todo;
        assert Edge(rep, fd, original[fd]) in Edges(h);
        assert original[fd] in Targets(h);
        fields := fields[fd := Representative(fields[fd])];
        todo := todo - {fd};
      }
    }

    /** Step 4: from every field target back to the owners of the fields. */
    method ConstructFieldParentMap()
      requires revFields == map[]
      modifies this`revFields
      ensures IsReverseIndex(revFields, partitions, members.Keys)
    {
      var reps := members.Keys;
      var rest := reps;
      NoOwners(partitions);
      assert reps - rest == {};
      while rest != {}
        invariant rest <= reps && reps == members.Keys
        invariant IsReverseIndex(revFields, partitions, reps - rest)
        decreases rest
      {
        var rep :| rep in rest;
        if rep in partitions {
          var fmap := partitions[rep].fieldRefs;
          var todo := fmap.Keys;
          ghost var before := revFields;
          NoHits(fmap);
          assert fmap.Keys - todo == {};
          while todo != {}
            invariant todo <= fmap.Keys
            invariant forall t, o :: Occurrences(revFields, t, o) ==
                        Occurrences(before, t, o) + if o == rep then Hits(fmap, fmap.Keys - todo, t) else 0
            invariant forall t <- revFields :: revFields[t] != []
            decreases todo
          {
            var fd :| fd in todo;
            AddHit(revFields, fmap, todo, fd, rep);
            revFields := Append(revFields, fmap[fd], rep);
            todo := todo - {fd};
          }
          assert fmap.Keys - todo == fmap.Keys;
        }
        assert reps - (rest - {rep}) == (reps - rest) + {rep};
        rest := rest - {rep};
      }
      assert reps - rest == reps;
    }

    function Representative(ref: Reference): Reference
      requires ref in parents
      reads this`parents
    {
      parents[ref]
    }
  }

  /** Go's append to the list of a key, which starts out nil. */
  function Append(lists: ReferenceLists, key: Reference, r: Reference): ReferenceLists {
    lists[key := (if key in lists then lists[key] else []) + [r]]
  }

  lemma AddMember(members: ReferenceLists, seen: ParentMap, ref: Reference, rep: Reference)
    requires IsMemberIndex(members, seen) && ref !in seen
    ensures IsMemberIndex(Append(members, rep, ref), seen[ref := rep])
  {
    var members', seen' := Append(members, rep, ref), seen[ref := rep];
    AddValue(seen, ref, rep);
    hide MembersOf;
    forall x <- members' ensures multiset(members'[x]) == multiset(MembersOf(seen', x)) {
      if x == rep {
        AddToOwnList(members, seen, ref, rep);
      } else {
        AddToMembers(seen, ref, rep, x);
      }
    }
  }

  lemma AddToOwnList(members: ReferenceLists, seen: ParentMap, ref: Reference, rep: Reference)
    requires IsMemberIndex(members, seen) && ref !in seen
    ensures multiset(Append(members, rep, ref)[rep]) == multiset(MembersOf(seen[ref := rep], rep))
  {
    AddToMembers(seen, ref, rep, rep);
    NoMembers(seen, rep);
    hide MembersOf;
    var list := if rep in members then members[rep] else [];
    assert multiset(list + [ref]) == multiset(list) + multiset{ref};
    assert multiset(MembersOf(seen, rep) + {ref}) == multiset(MembersOf(seen, rep)) + multiset{ref};
  }

  lemma AddToMembers(seen: ParentMap, ref: Reference, rep: Reference, x: Reference)
    requires ref !in seen
    ensures ref !in MembersOf(seen, rep)
    ensures MembersOf(seen[ref := rep], x) == if x == rep then MembersOf(seen, x) + {ref} else MembersOf(seen, x)
  {
  }

  lemma NoMembers(seen: ParentMap, rep: Reference)
    ensures rep !in seen.Values ==> MembersOf(seen, rep) == {}
  {
  }

  lemma AddValue(seen: ParentMap, ref: Reference, rep: Reference)
    requires ref !in seen
    ensures seen[ref := rep].Values == seen.Values + {rep}
  {
    var seen' := seen[ref := rep];
    assert seen'[ref] == rep;
    forall x <- seen.Values ensures x in seen'.Values {
      var r :| r in seen && seen[r] == x;
      assert seen'[r] == x;
    }
  }

  lemma NoOwners(partitions: PartitionInfoMap)
    ensures IsReverseIndex(map[], partitions, {})
  {
  }

  lemma NoHits(fields: FieldMap)
    ensures forall t :: Hits(fields, {}, t) == 0
  {
  }

  lemma AddHit(rev: ReferenceLists, fields: FieldMap, todo: set<Field>, fd: Field, rep: Reference)
    requires fd in todo && todo <= fields.Keys
    ensures forall t :: Hits(fields, fields.Keys - (todo - {fd}), t) ==
                        Hits(fields, fields.Keys - todo, t) + if t == fields[fd] then 1 else 0
    ensures forall t, o :: Occurrences(Append(rev, fields[fd], rep), t, o) ==
                           Occurrences(rev, t, o) + if t == fields[fd] && o == rep then 1 else 0
  {
    forall t ensures Hits(fields, fields.Keys - (todo - {fd}), t) ==
                     Hits(fields, fields.Keys - todo, t) + if t == fields[fd] then 1 else 0
    {
      OneMoreHit(fields, todo, fd, t);
    }
    hide Hits;
    forall t, o ensures Occurrences(Append(rev, fields[fd], rep), t, o) ==
                        Occurrences(rev, t, o) + if t == fields[fd] && o == rep then 1 else 0
    {
      OneMoreOccurrence(rev, fields[fd], rep, t, o);
    }
  }

  lemma OneMoreHit(fields: FieldMap, todo: set<Field>, fd: Field, t: Reference)
    requires fd in todo && todo <= fields.Keys
    ensures Hits(fields, fields.Keys - (todo - {fd}), t) ==
            Hits(fields, fields.Keys - todo, t) + if t == fields[fd] then 1 else 0
  {
    var old' := set f | f in fields.Keys - todo && f in fields && fields[f] == t;
    var new' := set f | f in fields.Keys - (todo - {fd}) && f in fields && fields[f] == t;
    assert new' == if t == fields[fd] then old' + {fd} else old';
  }

  lemma OneMoreOccurrence(rev: ReferenceLists, key: Reference, r: Reference, t: Reference, o: Reference)
    ensures Occurrences(Append(rev, key, r), t, o) == Occurrences(rev, t, o) + if t == key && o == r then 1 else 0
  {
  }

  // ---- agreement with the state ----

  /** The finalised index agrees with the state it replaces: parents are representatives, members are
      classes, field targets are representatives of the old targets. */
  ghost predicate AgreesWith(p: Partitions, h: Heap)
    requires WellFormed(h) && Targets(h) <= h.parents.Keys
    reads p
  {
    && p.parents.Keys == h.parents.Keys
    && (forall r <- p.parents :: p.parents[r] == Root(h.parents, r))
    && p.members.Keys == h.partitions.Keys && p.partitions.Keys == h.partitions.Keys
    && (forall rep <- p.members ::
          multiset(p.members[rep]) == multiset(set r | r in h.parents && Root(h.parents, r) == rep))
    && (forall rep <- p.partitions :: p.partitions[rep].fieldRefs.Keys == h.partitions[rep].fieldRefs.Keys)
    && (forall rep, f | rep in p.partitions && f in p.partitions[rep].fieldRefs ::
          p.partitions[rep].fieldRefs[f] == Root(h.parents, h.partitions[rep].fieldRefs[f]))
    && IsReverseIndex(p.revFields, p.partitions, p.partitions.Keys)
  }

  /** ToPartitions. */
  method ToPartitions(state: State) returns (p: Partitions)
    requires state.Valid() && Targets(state.Snapshot()) <= state.parents.Keys
    ensures fresh(p) && IsOptimized(p.parents, state.parents)
    ensures AtMostTwoHops(state.parents) <==> AgreesWith(p, state.Snapshot())
  {
    p := new Partitions(state.parents, state.partitions);
    p.Finalize();
    AgreementIff(p, state.Snapshot());
  }

  lemma AgreementIff(p: Partitions, h: Heap)
    requires WellFormed(h) && Targets(h) <= h.parents.Keys
    requires IsOptimized(p.parents, h.parents)
    requires IsMemberIndex(p.members, p.parents) && p.partitions.Keys == h.partitions.Keys
    requires forall r <- p.partitions :: IsNormalized(p.partitions[r].fieldRefs, h.partitions[r].fieldRefs, p.parents)
    requires IsReverseIndex(p.revFields, p.partitions, p.members.Keys)
    ensures AtMostTwoHops(h.parents) <==> AgreesWith(p, h)
  {
    OptimizedIsExactIff(h.parents, p.parents);
    hide IsReverseIndex, IsOptimized;
    if AtMostTwoHops(h.parents) {
      forall rep ensures rep in p.parents.Values <==> rep in h.partitions {
        if rep in h.partitions {
          assert p.parents[rep] == rep;
        }
      }
      forall rep ensures MembersOf(p.parents, rep) == set r | r in h.parents && Root(h.parents, r) == rep {
      }
      forall rep, f | rep in p.partitions && f in p.partitions[rep].fieldRefs
        ensures p.partitions[rep].fieldRefs[f] == Root(h.parents, h.partitions[rep].fieldRefs[f])
      {
        assert IsNormalized(p.partitions[rep].fieldRefs, h.partitions[rep].fieldRefs, p.parents);
      }
    }
  }

  /** In the index that finalize leaves, an owner is listed under t as often as it has fields that lead to t. */
  lemma OwnersAreListed(p: Partitions, owners: set<Reference>, o: Reference, t: Reference)
    requires IsReverseIndex(p.revFields, p.partitions, owners) && o in owners && o in p.partitions
    ensures var fields := p.partitions[o].fieldRefs;
      |set f | f in fields && fields[f] == t| == if t in p.revFields then multiset(p.revFields[t])[o] else 0
  {
    var fields := p.partitions[o].fieldRefs;
    assert (set f | f in fields && fields[f] == t) == set f | f in fields.Keys && f in fields && fields[f] == t;
    assert Occurrences(p.revFields, t, o) == Hits(fields, fields.Keys, t);
  }

  // ---- path compression makes the index exact ----

  /** Looking up every reference of the list in turn. */
  ghost function LookupAll(p: ParentMap, refs: seq<Reference>): (q: ParentMap)
    requires IsForest(p)
    ensures IsForest(q) && q.Keys == p.Keys
    decreases |refs|
  {
    if refs == [] then p
    else
      CompressKeepsRoots(p, refs[0]);
      LookupAll(Compress(p, refs[0]), refs[1..])
  }

  lemma {:induction false} LookupKeepsFlat(p: ParentMap, refs: seq<Reference>, r: Reference)
    requires IsForest(p) && r in p && p[r] == Root(p, r)
    ensures LookupAll(p, refs)[r] == Root(p, r)
    ensures Root(LookupAll(p, refs), r) == Root(p, r)
    decreases |refs|
  {
    if refs != [] {
      CompressKeepsRoots(p, refs[0]);
      CompressEntry(p, refs[0], r);
      LookupKeepsFlat(Compress(p, refs[0]), refs[1..], r);
    }
  }

  lemma {:induction false} LookupFlattens(p: ParentMap, refs: seq<Reference>, r: Reference)
    requires IsForest(p) && r in p && r in refs
    ensures LookupAll(p, refs)[r] == Root(p, r) == Root(LookupAll(p, refs), r)
    decreases |refs|
  {
    CompressKeepsRoots(p, refs[0]);
    var q := Compress(p, refs[0]);
    if r == refs[0] {
      CompressEntry(p, r, r);
      assert Climb(p, r, 0) == r;
      LookupKeepsFlat(q, refs[1..], r);
    } else {
      LookupFlattens(q, refs[1..], r);
    }
  }

  /** After every reference has been looked up once, in any order, no chain has more than two hops. */
  lemma LookingUpAllEnablesFinalize(p: ParentMap, refs: seq<Reference>)
    requires IsForest(p) && forall r <- p :: r in refs
    ensures AtMostTwoHops(LookupAll(p, refs))
  {
    var q := LookupAll(p, refs);
    forall r <- q ensures IsHead(q, Grandparent(q, r)) {
      LookupFlattens(p, refs, r);
      ParentIsHigher(q, r);
      LookupFlattens(p, refs, q[r]);
    }
  }
}
