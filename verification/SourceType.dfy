/** Identification of sources by their type (internal/pkg/sourcetype/sourcetype.go). */
module SourceType {
  import opened Graphs

  /** The identity of a types.Type. */
  datatype Type = Type(id: nat)

  /** The shape of a type, with the answers of the configuration and of the field tags built in. */
  datatype Shape =
    | Named(configured: bool, underlying: Type)
    | Array(elem: Type)
    | Slice(elem: Type)
    | Chan(elem: Type)
    | Map(key: Type, elem: Type)
    | Pointer(elem: Type)
    | Struct(taggedFields: seq<bool>)
    | Opaque   // Basic, Tuple, Interface, Signature, and anything unexpected

  /** A finite, possibly cyclic type graph. */
  type TypeGraph = map<Type, Shape>

  ghost predicate IsTypeGraph(g: TypeGraph) {
    forall t, u | t in g && IsEdge(g, t, u) :: u in g
  }

  /** Underlying, Elem and Key edges. */
  predicate IsEdge(g: TypeGraph, t: Type, u: Type) {
    t in g && match g[t]
              case Named(_, underlying) => u == underlying
              case Map(key, elem) => u == key || u == elem
              case Struct(_) => false
              case Opaque => false
              case shape => u == shape.elem
  }

  function Next(g: TypeGraph): Relation<Type> {
    (t, u) => IsEdge(g, t, u)
  }

  /** A source on its own account: a configured named type or a struct with a tagged field. */
  ghost predicate IsSource(g: TypeGraph, t: Type) {
    t in g && match g[t]
              case Named(configured, _) => configured
              case Struct(tagged) => true in tagged
              case _ => false
  }

  ghost predicate ContainsSource(g: TypeGraph, t: Type) {
    exists u :: Reach(Next(g), t, u) && IsSource(g, u)
  }

  method HasTaggedField(taggedFields: seq<bool>) returns (has: bool)
    ensures has <==> true in taggedFields
  {
    for i := 0 to |taggedFields|
      invariant true !in taggedFields[..i]
    {
      if taggedFields[i] {
        return true;
      }
    }
    return false;
  }

  /** No source itself, and all its components have been seen. */
  ghost predicate IsDone(g: TypeGraph, seen: set<Type>, t: Type) {
    !IsSource(g, t) && forall u | IsEdge(g, t, u) :: u in seen
  }

  /** The types seen so far, shared by the recursive calls. */
  class Search {
    const g: TypeGraph
    var seen: set<Type>

    constructor (g: TypeGraph)
      ensures this.g == g && seen == {}
    {
      this.g, seen := g, {};
    }

    /** A seen type is no source and its components have been seen; except for those of before. */
    ghost predicate Explored(before: set<Type>)
      reads this
    {
      before <= seen && forall x <- seen - before :: IsDone(g, seen, x)
    }

    /** "No" for a type that was seen before is provisional; whoever saw it first is still looking or found nothing. */
    method IsSourceType(t: Type) returns (isSource: bool)
      requires IsTypeGraph(g) && t in g && seen <= g.Keys
      modifies this
      ensures old(seen) <= seen <= g.Keys && t in seen
      ensures isSource ==> ContainsSource(g, t)
      ensures !isSource ==> Explored(old(seen))
      decreases g.Keys - seen
    {
      hide ContainsSource;
      if t in seen {
        return false;
      }
      seen := seen + {t};
      OwnSource(g, t);
      match g[t] {
        case Named(configured, underlying) =>
          if configured {
            return true;
          }
          assert IsEdge(g, t, underlying);
          isSource := IsSourceType(underlying);
          SourceThrough(g, t, underlying);
        case Map(key, elem) =>
          assert IsEdge(g, t, key) && IsEdge(g, t, elem);
          var inKey := IsSourceType(key);
          ghost var afterKey := seen;
          var inElem := IsSourceType(elem);
          isSource := inKey || inElem;
          assert !inKey ==> forall x <- afterKey - old(seen) - {t} :: IsDone(g, afterKey, x) && IsDone(g, seen, x);
          SourceThrough(g, t, key);
          SourceThrough(g, t, elem);
        case Struct(taggedFields) =>
          isSource := HasTaggedField(taggedFields);
        case Opaque =>
          isSource := false;
        case shape =>
          assert IsEdge(g, t, shape.elem);
          isSource := IsSourceType(shape.elem);
          SourceThrough(g, t, shape.elem);
      }
    }
  }

  lemma OwnSource(g: TypeGraph, t: Type)
    ensures IsSource(g, t) ==> ContainsSource(g, t)
  {
    ReachSelf(Next(g), t);
  }

  lemma SourceThrough(g: TypeGraph, t: Type, u: Type)
    requires IsEdge(g, t, u)
    ensures ContainsSource(g, u) ==> ContainsSource(g, t)
  {
    if ContainsSource(g, u) {
      var s :| Reach(Next(g), u, s) && IsSource(g, s);
      ReachEdge(Next(g), t, u);
      ReachTransitive(Next(g), t, u, s);
    }
  }

  /** IsSourceType: whether a configured named type or a struct with a tagged field is reachable. */
  method IsSourceType(g: TypeGraph, t: Type) returns (isSource: bool)
    requires IsTypeGraph(g) && t in g
    ensures isSource <==> ContainsSource(g, t)
    ensures isSource <==> forall harmless | AreHarmless(g, harmless) :: t !in harmless
  {
    var search := new Search(g);
    isSource := search.IsSourceType(t);
    if !isSource {
      NothingFound(g, search.seen, t);
      SeenIsHarmless(g, search.seen);
    }
    forall harmless | AreHarmless(g, harmless) && t in harmless ensures !isSource {
      HarmlessContainsNoSource(g, harmless, t);
    }
  }

  // ---- the answer, shape by shape ----

  /** What a type with this shape answers, given what others answer. */
  ghost predicate IsSourceBy(shape: Shape, answers: Type -> bool) {
    match shape
    case Named(configured, underlying) => configured || answers(underlying)
    case Map(key, elem) => answers(key) || answers(elem)
    case Array(elem) => answers(elem)
    case Slice(elem) => answers(elem)
    case Chan(elem) => answers(elem)
    case Pointer(elem) => answers(elem)
    case Struct(taggedFields) => exists i | 0 <= i < |taggedFields| :: taggedFields[i]
    case Opaque => false
  }

  /** The answers satisfy the equations that the cases of the source state. */
  lemma AnswersAreConsistent(g: TypeGraph, t: Type)
    requires IsTypeGraph(g) && t in g
    ensures ContainsSource(g, t) <==> IsSourceBy(g[t], u => ContainsSource(g, u))
  {
    var answers := u => ContainsSource(g, u);
    OwnSource(g, t);
    if ContainsSource(g, t) {
      var s :| Reach(Next(g), t, s) && IsSource(g, s);
      ReachSplits(Next(g), t, s);
      if s != t {
        var u :| Next(g)(t, u) && Reach(Next(g), u, s);
        assert answers(u);
      }
    }
    if IsSourceBy(g[t], answers) {
      forall u | IsEdge(g, t, u) ensures ContainsSource(g, u) ==> ContainsSource(g, t) {
        SourceThrough(g, t, u);
      }
      EdgesAreComponents(g, t);
    }
  }

  /** The components of a type. */
  lemma EdgesAreComponents(g: TypeGraph, t: Type)
    requires t in g
    ensures match g[t]
            case Named(_, underlying) => IsEdge(g, t, underlying)
            case Map(key, elem) => IsEdge(g, t, key) && IsEdge(g, t, elem)
            case Struct(_) => true
            case Opaque => true
            case shape => IsEdge(g, t, shape.elem)
  {
  }

  /** Types that may all answer no together: each does if the others do. */
  ghost predicate AreHarmless(g: TypeGraph, types: set<Type>) {
    forall t <- types :: t in g && !IsSourceBy(g[t], u => u !in types)
  }

  /** On cyclic types the equations have more than one solution; the answer is the least. */
  lemma HarmlessContainsNoSource(g: TypeGraph, types: set<Type>, t: Type)
    requires AreHarmless(g, types) && t in types
    ensures !ContainsSource(g, t)
  {
    forall x <- types ensures IsDone(g, types, x) {
      assert !IsSourceBy(g[x], u => u !in types);
    }
    NothingFound(g, types, t);
  }

  lemma SeenIsHarmless(g: TypeGraph, seen: set<Type>)
    requires seen <= g.Keys && forall x <- seen :: IsDone(g, seen, x)
    ensures AreHarmless(g, seen)
  {
    forall t <- seen ensures !IsSourceBy(g[t], u => u !in seen) {
      assert IsDone(g, seen, t);
      EdgesAreComponents(g, t);
    }
  }

  lemma NothingFound(g: TypeGraph, seen: set<Type>, t: Type)
    requires t in seen && forall x <- seen :: IsDone(g, seen, x)
    ensures !ContainsSource(g, t)
  {
    if ContainsSource(g, t) {
      var s :| Reach(Next(g), t, s) && IsSource(g, s);
      assert IsClosed(Next(g), seen);
      ClosedKeepsReach(Next(g), seen, t, s);
    }
  }
}
