/** What the taint search may do and what it leaves behind, stated on the trails that lead to the nodes it taints
    (internal/pkg/propagation/propagation.go). */
module TaintSearch {
  import opened References
  import opened Graphs
  import opened Ssa

  // ---- moves ----

  /** Arriving at a node, as a referrer of the node before or not. */
  datatype Hop = Hop(node: Node, asReferrer: bool)

  ghost predicate IsReferrerHop(p: Program, m: Node, h: Hop)
    requires m in p.nodes
  {
    && h.asReferrer && p.nodes[m].taintableType && p.nodes[m].referrers.Some?
    && h.node in p.nodes[m].referrers.value
  }

  ghost predicate IsOperandHop(p: Program, m: Node, h: Hop)
    requires m in p.nodes
  {
    !h.asReferrer && Some(h.node) in p.nodes[m].operands
  }

  /** Moves that depend on the kind of the node only. */
  ghost predicate IsStaticHop(p: Program, m: Node, h: Hop)
    requires m in p.nodes
  {
    match p.nodes[m].kind
    case Alloc(isArray) => isArray && IsReferrerHop(p, m, h)
    case Field(isSource) => isSource && (IsReferrerHop(p, m, h) || IsOperandHop(p, m, h))
    case FieldAddr(isSource) => isSource && (IsReferrerHop(p, m, h) || IsOperandHop(p, m, h))
    case Index(x) => IsReferrerHop(p, m, h) || h == Hop(x, false)
    case IndexAddr(x) => IsReferrerHop(p, m, h) || h == Hop(x, false)
    case Slice(x) => IsReferrerHop(p, m, h) || h == Hop(x, false)
    case Store(addr) => h == Hop(addr, false)
    case MapUpdate(map') => h == Hop(map', false)
    case Send(channel) => h == Hop(channel, false)
    case BinOp | ChangeInterface | ChangeType | Convert | Extract(_) | MakeChan | MakeMap | MakeSlice | Phi | Range =>
      IsReferrerHop(p, m, h)
    case Const | FreeVar | Global | Lookup | Parameter => IsReferrerHop(p, m, h)
    case MakeInterface | TypeAssert | UnOp => IsReferrerHop(p, m, h) || IsOperandHop(p, m, h)
    case Call(c) => !c.sanitizer && c.builtin.Some? && IsBuiltinHop(p, m, c, h)
    case _ => false
  }

  ghost predicate IsBuiltinHop(p: Program, m: Node, c: CallInfo, h: Hop)
    requires m in p.nodes && c.builtin.Some?
  {
    match c.builtin.value
    case Append => IsReferrerHop(p, m, h) || IsFirstArgument(c, h)
    case Copy => IsFirstArgument(c, h)
    case OtherBuiltin => false
  }

  ghost predicate IsFirstArgument(c: CallInfo, h: Hop) {
    |c.args| > 0 && |c.taintable| > 0 && c.taintable[0] && h == Hop(c.args[0], false)
  }

  /** Moves that also depend on what is tainted already: calls with a summary, and selects. */
  ghost predicate IsConditionalHop(p: Program, m: Node, h: Hop, tainted: set<Node>)
    requires m in p.nodes
  {
    match p.nodes[m].kind
    case Call(c) =>
      && !c.sanitizer && c.builtin.None? && IsGateOpen(c, tainted)
      && (IsTaintedArgument(c, h) || IsTaintedResult(p, m, c, h))
    case Go(c) => IsGateOpen(c, tainted) && IsTaintedArgument(c, h)
    case Select(states) => exists k | 0 <= k < |states| :: IsSelectHop(p, m, states, k, h, tainted)
    case _ => false
  }

  /** One of the positions of the bitset holds a tainted argument. Positions from 64 on are shifted out. */
  ghost predicate IsGateOpen(c: CallInfo, tainted: set<Node>) {
    c.summary.Some? && exists i | 0 <= i < |Program.Arguments(c)| && i < 64 ::
      Program.Arguments(c)[i] in tainted && i in c.summary.value.ifTainted
  }

  ghost predicate IsTaintedArgument(c: CallInfo, h: Hop)
    requires c.summary.Some?
  {
    !h.asReferrer && exists i <- c.summary.value.taintedArgs ::
      i < |Program.Arguments(c)| && Program.Arguments(c)[i] == h.node
  }

  ghost predicate IsTaintedResult(p: Program, m: Node, c: CallInfo, h: Hop)
    requires m in p.nodes && c.summary.Some?
  {
    p.nodes[m].referrers.Some? &&
    if c.results == 1 then |c.summary.value.taintedRets| > 0 && IsReferrerHop(p, m, h)
    else
      h.asReferrer && exists i | 0 <= i < |c.summary.value.taintedRets| ::
        i in c.extractOf && c.extractOf[i] == h.node
  }

  /** The tuple position of what a receive state yields. */
  function ExtractIndex(states: seq<SelectState>, k: nat): nat
    requires k <= |states|
  {
    if k == 0 then 2 else ExtractIndex(states, k - 1) + if states[k - 1].dir.RecvOnly? then 1 else 0
  }

  ghost predicate IsSelectHop(p: Program, m: Node, states: seq<SelectState>, k: nat, h: Hop, tainted: set<Node>)
    requires m in p.nodes && k < |states|
  {
    !h.asReferrer && match states[k].dir
    case SendOnly => states[k].send.Some? && states[k].send.value in tainted && h.node == states[k].channel
    case RecvOnly => states[k].channel in tainted && p.nodes[m].referrers.Some? && h.node in p.nodes[m].referrers.value
                     && h.node in p.nodes && p.nodes[h.node].kind == Extract(ExtractIndex(states, k))
  }

  ghost predicate IsHop(p: Program, m: Node, h: Hop, tainted: set<Node>)
    requires m in p.nodes
  {
    IsStaticHop(p, m, h) || IsConditionalHop(p, m, h, tainted)
  }

  // ---- trails ----

  /** The nodes through which the search came, oldest first. */
  type Trail = seq<Hop>

  function End(t: Trail): Node
    requires t != []
  {
    t[|t| - 1].node
  }

  function Before(t: Trail): Trail
    requires t != []
  {
    t[..|t| - 1]
  }

  /** The block of the last instruction on the trail. */
  ghost function LastBlock(p: Program, t: Trail): Option<Block> {
    if t == [] then None
    else if p.IsInstruction(End(t)) then Some(p.BlockOf(End(t)))
    else LastBlock(p, Before(t))
  }

  /** The highest index that the trail reached in block b, zero when it was not there. */
  ghost function HighestIndex(p: Program, t: Trail, b: Block): (index: int)
    requires p.WellFormed()
    ensures index >= 0
  {
    if t == [] then 0
    else
      var before := HighestIndex(p, Before(t), b);
      var n := End(t);
      if p.IsInstruction(n) && p.BlockOf(n) == b && Position(p, n).Some? && before < Position(p, n).value
      then Position(p, n).value
      else before
  }

  /** Flow forbids going on to h: it has no place in its block, its block cannot be reached from the last one, or
      it is a call entered as a referrer that lies in the past. */
  ghost predicate IsBlocked(p: Program, t: Trail, h: Hop)
    requires p.WellFormed()
  {
    p.IsInstruction(h.node) &&
    var last, b, index := LastBlock(p, t), p.BlockOf(h.node), Position(p, h.node);
    || index.None?
    || (last.Some? && b != last.value && !Reach(Flow(p), last.value, b))
    || (p.nodes[h.node].kind.Call? && index.Some? && index.value < HighestIndex(p, t, b) && h.asReferrer)
  }

  /** The search may go from the trail t (empty: from the start) to h. */
  ghost predicate CanEnter(p: Program, root: Node, t: Trail, h: Hop, tainted: set<Node>) {
    if t == [] then h == Hop(root, false) || (root in p.nodes && IsReferrerHop(p, root, h))
    else End(t) in p.nodes && IsHop(p, End(t), h, tainted)
  }

  /** Every hop was possible and not blocked. A trail starts at the root or, in the second phase, which forgets
      where it has been, at a referrer of the root. */
  ghost predicate IsTrail(p: Program, root: Node, t: Trail, tainted: set<Node>)
    requires p.WellFormed()
  {
    forall i | 0 <= i < |t| :: IsGoodHop(p, root, t, i, tainted)
  }

  ghost predicate IsGoodHop(p: Program, root: Node, t: Trail, i: nat, tainted: set<Node>)
    requires p.WellFormed() && i < |t|
  {
    t[i].node in p.nodes && CanEnter(p, root, t[..i], t[i], tainted) && !IsBlocked(p, t[..i], t[i])
  }

  // ---- the state of a search ----

  /** The nodes tainted so far in order, the trail by which each was tainted, and the sanitizer calls met. */
  datatype Search = Search(preOrder: seq<Node>, trails: seq<Trail>, sanitizers: seq<Node>)

  ghost function Tainted(s: Search): set<Node> {
    Elements(s.preOrder)
  }

  ghost predicate IsSanitizerCall(p: Program, n: Node) {
    n in p.nodes && p.nodes[n].kind.Call? && p.nodes[n].kind.call.sanitizer
  }

  /** Nothing is listed twice; every node was tainted by a trail that extends the trail of an earlier node, unless it is
      the root or a direct referrer of it. */
  ghost predicate IsValid(p: Program, root: Node, s: Search)
    requires p.WellFormed()
  {
    && |s.trails| == |s.preOrder| && Distinct(s.preOrder) && Tainted(s) <= p.nodes.Keys
    && (forall i | 0 <= i < |s.trails| :: HasTrail(p, root, s, i))
    && (forall n <- s.sanitizers :: n in Tainted(s) && IsSanitizerCall(p, n))
  }

  ghost predicate HasTrail(p: Program, root: Node, s: Search, i: nat)
    requires p.WellFormed() && i < |s.trails| == |s.preOrder|
  {
    var t := s.trails[i];
    && t != [] && End(t) == s.preOrder[i] && IsTrail(p, root, t, Tainted(s))
    && (Before(t) == [] || Before(t) in s.trails[..i])
  }

  /** The search followed hop h from trail t, or flow blocked it. */
  ghost predicate IsFollowed(p: Program, s: Search, t: Trail, h: Hop)
    requires p.WellFormed()
  {
    h.node in Tainted(s) || IsBlocked(p, t, h)
  }

  /** All that the kind of a node asks for has been done: a sanitizer call was recorded, and every hop that was
      possible when the node was visited was followed. */
  ghost predicate IsHandled(p: Program, s: Search, t: Trail, taintedThen: set<Node>)
    requires p.WellFormed() && t != []
  {
    && End(t) in p.nodes
    && (IsSanitizerCall(p, End(t)) ==> End(t) in s.sanitizers)
    && forall h | IsHop(p, End(t), h, taintedThen) :: IsFollowed(p, s, t, h)
  }

  /** The i-th node has been handled, given what was tainted up to and including it. */
  ghost predicate IsHandledAt(p: Program, s: Search, i: nat)
    requires p.WellFormed() && i < |s.trails| == |s.preOrder|
  {
    s.trails[i] != [] && IsHandled(p, s, s.trails[i], Elements(s.preOrder[..i + 1]))
  }

  /** s' continues s, and whatever it tainted in addition has been handled. */
  ghost predicate Continues(p: Program, s: Search, s': Search)
    requires p.WellFormed()
  {
    && s.preOrder <= s'.preOrder && s.trails <= s'.trails && s.sanitizers <= s'.sanitizers
    && |s.preOrder| == |s.trails| && |s'.preOrder| == |s'.trails|
    && forall i | |s.trails| <= i < |s'.trails| :: IsHandledAt(p, s', i)
  }

  /** Everything tainted has been handled. */
  ghost predicate IsFinished(p: Program, s: Search)
    requires p.WellFormed()
  {
    |s.preOrder| == |s.trails| && forall i | 0 <= i < |s.trails| :: IsHandledAt(p, s, i)
  }

  lemma TaintedGrows(s: Search, s': Search)
    requires s.preOrder <= s'.preOrder
    ensures Tainted(s) <= Tainted(s')
  {
    assert s'.preOrder == s.preOrder + s'.preOrder[|s.preOrder|..];
  }

  lemma HandledStays(p: Program, s: Search, s': Search, t: Trail, taintedThen: set<Node>)
    requires p.WellFormed() && t != [] && IsHandled(p, s, t, taintedThen)
    requires s.preOrder <= s'.preOrder && s.sanitizers <= s'.sanitizers
    ensures IsHandled(p, s', t, taintedThen)
  {
    TaintedGrows(s, s');
    assert s'.sanitizers == s.sanitizers + s'.sanitizers[|s.sanitizers|..];
    forall h | IsHop(p, End(t), h, taintedThen) ensures IsFollowed(p, s', t, h) {
      assert IsFollowed(p, s, t, h);
    }
  }

  lemma ContinuesTransitive(p: Program, s: Search, s1: Search, s2: Search)
    requires p.WellFormed() && Continues(p, s, s1) && Continues(p, s1, s2)
    ensures Continues(p, s, s2)
  {
    forall i | |s.trails| <= i < |s2.trails| ensures IsHandledAt(p, s2, i) {
      if i < |s1.trails| {
        assert IsHandledAt(p, s1, i);
        assert s2.preOrder[..i + 1] == s1.preOrder[..i + 1];
        HandledStays(p, s1, s2, s1.trails[i], Elements(s1.preOrder[..i + 1]));
      }
    }
  }

  lemma ConditionalHopStays(p: Program, m: Node, h: Hop, tainted: set<Node>, more: set<Node>)
    requires m in p.nodes && tainted <= more && IsConditionalHop(p, m, h, tainted)
    ensures IsConditionalHop(p, m, h, more)
  {
    match p.nodes[m].kind {
      case Select(states) =>
        var k :| 0 <= k < |states| && IsSelectHop(p, m, states, k, h, tainted);
        assert IsSelectHop(p, m, states, k, h, more);
      case _ =>
    }
  }

  lemma TrailStays(p: Program, root: Node, t: Trail, tainted: set<Node>, more: set<Node>)
    requires p.WellFormed() && tainted <= more && IsTrail(p, root, t, tainted)
    ensures IsTrail(p, root, t, more)
  {
    forall i | 0 <= i < |t| ensures IsGoodHop(p, root, t, i, more) {
      assert IsGoodHop(p, root, t, i, tainted);
      if i > 0 && IsConditionalHop(p, End(t[..i]), t[i], tainted) {
        ConditionalHopStays(p, End(t[..i]), t[i], tainted, more);
      }
    }
  }

  /** Tainting one more node by a hop that is possible and not blocked. */
  function Push(s: Search, t: Trail, h: Hop): Search {
    s.(preOrder := s.preOrder + [h.node], trails := s.trails + [t + [h]])
  }

  lemma PushIsValid(p: Program, root: Node, s: Search, t: Trail, h: Hop)
    requires p.WellFormed() && IsValid(p, root, s)
    requires t == [] || (t in s.trails && End(t) in Tainted(s))
    requires h.node in p.nodes && h.node !in Tainted(s)
    requires IsTrail(p, root, t, Tainted(s)) && CanEnter(p, root, t, h, Tainted(s)) && !IsBlocked(p, t, h)
    ensures IsValid(p, root, Push(s, t, h)) && Tainted(Push(s, t, h)) == Tainted(s) + {h.node}
    ensures IsTrail(p, root, t + [h], Tainted(Push(s, t, h)))
  {
    var s' := Push(s, t, h);
    assert Tainted(s') == Tainted(s) + {h.node};
    ExtendTrail(p, root, t, h, Tainted(s));
    TrailStays(p, root, t + [h], Tainted(s), Tainted(s'));
    forall i | 0 <= i < |s'.trails| ensures HasTrail(p, root, s', i) {
      if i < |s.trails| {
        assert HasTrail(p, root, s, i);
        TrailStays(p, root, s.trails[i], Tainted(s), Tainted(s'));
        assert s'.trails[..i] == s.trails[..i];
      } else {
        assert s'.trails[..i] == s.trails;
        assert Before(t + [h]) == t;
      }
    }
  }

  lemma ExtendTrail(p: Program, root: Node, t: Trail, h: Hop, tainted: set<Node>)
    requires p.WellFormed() && IsTrail(p, root, t, tainted)
    requires h.node in p.nodes && CanEnter(p, root, t, h, tainted) && !IsBlocked(p, t, h)
    ensures IsTrail(p, root, t + [h], tainted)
  {
    var t' := t + [h];
    forall i | 0 <= i < |t'| ensures IsGoodHop(p, root, t', i, tainted) {
      if i < |t| {
        assert IsGoodHop(p, root, t, i, tainted);
        assert t'[..i] == t[..i];
      } else {
        assert t'[..i] == t;
      }
    }
  }
}
