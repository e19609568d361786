/** What every search result satisfies: connectedness, flow, and the meaning of sanitisation. */
module TaintTheorems {
  import opened References
  import opened Graphs
  import opened Ssa
  import opened TaintSearch
  import opened Sanitizer
  import opened Propagation

  // ---- connectedness ----

  ghost predicate IsAdjacent(p: Program, m: Node, n: Node) {
    m in p.nodes && (Some(n) in p.nodes[m].operands || (p.nodes[m].referrers.Some? && n in p.nodes[m].referrers.value))
  }

  /** Kinds that let taint through at all. */
  ghost predicate LetsThrough(p: Program, m: Node) {
    m in p.nodes && match p.nodes[m].kind
                    case Call(c) => !c.sanitizer
                    case Alloc(isArray) => isArray
                    case Field(isSource) => isSource
                    case FieldAddr(isSource) => isSource
                    case Builtin | DebugRef | Defer | Function | If | Jump => false
                    case MakeClosure | Next | Panic | Return | RunDefers => false
                    case Unexpected => false
                    case _ => true
  }

  lemma HopsAreAdjacent(p: Program, m: Node, h: Hop, tainted: set<Node>)
    requires p.WellFormed() && m in p.nodes && IsHop(p, m, h, tainted)
    ensures IsAdjacent(p, m, h.node) && LetsThrough(p, m)
  {
    assert p.IsWellFormedNode(m);
    if IsStaticHop(p, m, h) {
      StaticHopIsAdjacent(p, m, h);
    } else {
      ConditionalHopIsAdjacent(p, m, h, tainted);
    }
  }

  lemma StaticHopIsAdjacent(p: Program, m: Node, h: Hop)
    requires p.WellFormed() && m in p.nodes && p.IsWellFormedNode(m) && IsStaticHop(p, m, h)
    ensures IsAdjacent(p, m, h.node) && LetsThrough(p, m)
  {
    match p.nodes[m].kind {
      case Call(c) =>
        if IsFirstArgument(c, h) {
          assert c.args[0] in Program.Arguments(c);
        }
      case _ =>
    }
  }

  lemma ConditionalHopIsAdjacent(p: Program, m: Node, h: Hop, tainted: set<Node>)
    requires p.WellFormed() && m in p.nodes && p.IsWellFormedNode(m) && IsConditionalHop(p, m, h, tainted)
    ensures IsAdjacent(p, m, h.node) && LetsThrough(p, m)
  {
    match p.nodes[m].kind {
      case Call(c) =>
        if IsTaintedArgument(c, h) {
          assert h.node in Program.Arguments(c);
        }
      case Go(c) =>
        assert h.node in Program.Arguments(c);
      case Select(states) =>
        var k :| 0 <= k < |states| && IsSelectHop(p, m, states, k, h, tainted);
        assert states[k] in states;
      case _ =>
    }
  }

  /** Every entry is the root, one of its direct referrers, or an operand or referrer of an earlier entry of a kind
      that lets taint through; no sanitizer call, inert node or unconfigured field is left again. */
  lemma EntriesAreConnected(p: Program, root: Node, s: Search, i: nat)
    requires p.WellFormed() && IsValid(p, root, s) && i < |s.preOrder|
    ensures s.preOrder[i] == root
            || (root in p.nodes && IsReferrerHop(p, root, Hop(s.preOrder[i], true)))
            || exists j | 0 <= j < i :: IsAdjacent(p, s.preOrder[j], s.preOrder[i]) && LetsThrough(p, s.preOrder[j])
  {
    assert HasTrail(p, root, s, i);
    var t := s.trails[i];
    assert IsGoodHop(p, root, t, |t| - 1, Tainted(s));
    if Before(t) != [] {
      var j :| 0 <= j < i && s.trails[j] == Before(t);
      assert HasTrail(p, root, s, j);
      HopsAreAdjacent(p, End(Before(t)), t[|t| - 1], Tainted(s));
    }
  }

  // ---- flow ----

  /** The last block of a trail can be reached from the block of every instruction on it. */
  lemma {:induction false} LastBlockIsReached(p: Program, root: Node, t: Trail, tainted: set<Node>, i: nat)
    requires p.WellFormed() && IsTrail(p, root, t, tainted) && i < |t| && p.IsInstruction(t[i].node)
    ensures LastBlock(p, t).Some? && Reach(Flow(p), p.BlockOf(t[i].node), LastBlock(p, t).value)
    decreases |t|
  {
    hide Reach;
    var last := t[|t| - 1];
    if i == |t| - 1 {
      ReachSelf(Flow(p), p.BlockOf(last.node));
    } else {
      PrefixIsTrail(p, root, t, tainted, |t| - 1);
      LastBlockIsReached(p, root, Before(t), tainted, i);
      assert IsGoodHop(p, root, t, |t| - 1, tainted);
      if p.IsInstruction(last.node) {
        var b := LastBlock(p, Before(t)).value;
        if p.BlockOf(last.node) != b {
          ReachTransitive(Flow(p), p.BlockOf(t[i].node), b, p.BlockOf(last.node));
        }
      }
    }
  }

  lemma PrefixIsTrail(p: Program, root: Node, t: Trail, tainted: set<Node>, n: nat)
    requires p.WellFormed() && IsTrail(p, root, t, tainted) && n <= |t|
    ensures IsTrail(p, root, t[..n], tainted)
  {
    forall i | 0 <= i < n ensures IsGoodHop(p, root, t[..n], i, tainted) {
      assert t[..n][..i] == t[..i];
      assert IsGoodHop(p, root, t, i, tainted);
    }
  }

  /** Taint flows forward: of two instructions on a trail the later one lies in the block of the earlier one or in
      a block that control flow can reach from there. */
  lemma TrailFollowsControlFlow(p: Program, root: Node, t: Trail, tainted: set<Node>, i: nat, j: nat)
    requires p.WellFormed() && IsTrail(p, root, t, tainted) && i <= j < |t|
    requires p.IsInstruction(t[i].node) && p.IsInstruction(t[j].node)
    ensures Reach(Flow(p), p.BlockOf(t[i].node), p.BlockOf(t[j].node))
  {
    PrefixIsTrail(p, root, t, tainted, j + 1);
    LastBlockIsReached(p, root, t[..j + 1], tainted, i);
  }

  lemma {:induction false} HighestIndexCovers(p: Program, t: Trail, i: nat)
    requires p.WellFormed() && i < |t| && p.IsInstruction(t[i].node) && Position(p, t[i].node).Some?
    ensures Position(p, t[i].node).value <= HighestIndex(p, t, p.BlockOf(t[i].node))
    decreases |t|
  {
    if i < |t| - 1 {
      HighestIndexCovers(p, Before(t), i);
    }
  }

  /** A call entered as a referrer never precedes, in its block, an instruction already on the trail. */
  lemma CallsAreNotInThePast(p: Program, root: Node, t: Trail, tainted: set<Node>, i: nat, j: nat)
    requires p.WellFormed() && IsTrail(p, root, t, tainted) && i < j < |t|
    requires p.IsInstruction(t[i].node) && p.IsInstruction(t[j].node) && p.BlockOf(t[i].node) == p.BlockOf(t[j].node)
    requires p.nodes[t[j].node].kind.Call? && t[j].asReferrer
    ensures Position(p, t[i].node).Some? && Position(p, t[j].node).Some?
    ensures Position(p, t[i].node).value <= Position(p, t[j].node).value
  {
    assert IsGoodHop(p, root, t, i, tainted) && IsGoodHop(p, root, t, j, tainted);
    HighestIndexCovers(p, t[..j], i);
  }

  /** Every tainted instruction can be reached from where its trail set out: the root or, in the second phase, a direct
      referrer of the root. */
  lemma TaintedIsReachable(p: Program, root: Node, s: Search, k: nat)
    requires p.WellFormed() && IsValid(p, root, s) && k < |s.preOrder| && p.IsInstruction(s.preOrder[k])
    ensures s.trails[k] != [] && var start := s.trails[k][0].node;
      && (start == root || (root in p.nodes && IsReferrerHop(p, root, s.trails[k][0])))
      && (p.IsInstruction(start) ==> Reach(Flow(p), p.BlockOf(start), p.BlockOf(s.preOrder[k])))
  {
    assert HasTrail(p, root, s, k);
    var t := s.trails[k];
    assert IsGoodHop(p, root, t, 0, Tainted(s));
    if p.IsInstruction(t[0].node) {
      TrailFollowsControlFlow(p, root, t, Tainted(s), 0, |t| - 1);
    }
  }

  // ---- sanitisation ----

  /** Every run of target's function executes n before it arrives at target. */
  ghost predicate AlwaysExecutedBefore(p: Program, n: Node, target: Node)
    requires p.WellFormed() && p.IsInstruction(target) && p.BlockOf(target) in p.blocks
  {
    forall run | IsRun(p, p.blocks[p.BlockOf(target)].parent, run, p.BlockOf(target)) ::
      (forall b <- run :: b in p.blocks) && ExecutedBefore(p, run, n, target)
  }

  /** A call dominates an instruction of its function exactly when every run executes it first. */
  lemma DominanceMeansExecution(p: Program, call: Node, target: Node)
    requires IsListed(p) && NoDeadBlocks(p) && p.IsInstruction(call) && p.IsInstruction(target)
    requires p.BlockOf(call) in p.blocks && p.BlockOf(target) in p.blocks
    ensures IsDominatedBy(p, call, target) <==>
            && p.blocks[p.BlockOf(call)].parent == p.blocks[p.BlockOf(target)].parent
            && AlwaysExecutedBefore(p, call, target)
  {
    hide IsRun, ExecutedBefore, BlockDominates;
    if IsDominatedBy(p, call, target) {
      forall run | IsRun(p, p.blocks[p.BlockOf(target)].parent, run, p.BlockOf(target))
        ensures (forall b <- run :: b in p.blocks) && ExecutedBefore(p, run, call, target)
      {
        DominatedIsExecutedAfter(p, call, target, run);
      }
    } else if p.blocks[p.BlockOf(call)].parent == p.blocks[p.BlockOf(target)].parent
              && AlwaysExecutedBefore(p, call, target)
    {
      AlwaysExecutedBeforeIsDominated(p, call, target);
    }
  }

  /** A tainted instruction is reported as sanitised exactly when one and the same recorded sanitizer call of its
      function is executed earlier on every run. */
  lemma SanitizedMeansExecuted(p: Program, root: Node, s: Search, instr: Node)
    requires IsListed(p) && NoDeadBlocks(p) && IsValid(p, root, s) && p.IsInstruction(instr)
    requires p.BlockOf(instr) in p.blocks
    ensures IsSanitizedAt(p, s.sanitizers, instr) <==>
            exists n <- s.sanitizers :: p.IsInstruction(n) && p.BlockOf(n) in p.blocks
              && p.blocks[p.BlockOf(n)].parent == p.blocks[p.BlockOf(instr)].parent && AlwaysExecutedBefore(p, n, instr)
  {
    hide IsRun, ExecutedBefore, IsDominatedBy;
    forall n | n in s.sanitizers
      ensures p.IsInstruction(n) && p.BlockOf(n) in p.blocks
      ensures IsDominatedBy(p, n, instr) <==>
              p.blocks[p.BlockOf(n)].parent == p.blocks[p.BlockOf(instr)].parent && AlwaysExecutedBefore(p, n, instr)
    {
      assert IsSanitizerCall(p, n) && p.IsWellFormedNode(n);
      DominanceMeansExecution(p, n, instr);
    }
  }

  /** In a finished search the recorded sanitizers are exactly the sanitizer calls that were tainted. */
  lemma SanitizersAreRecorded(p: Program, root: Node, s: Search, n: Node)
    requires p.WellFormed() && IsValid(p, root, s) && IsFinished(p, s)
    ensures n in s.sanitizers <==> n in Tainted(s) && IsSanitizerCall(p, n)
  {
    if n in Tainted(s) && IsSanitizerCall(p, n) {
      var i :| 0 <= i < |s.preOrder| && s.preOrder[i] == n;
      assert HasTrail(p, root, s, i);
      assert IsHandledAt(p, s, i);
    }
  }
}
