/** Domination of an instruction by a sanitizing call (internal/pkg/sanitizer/sanitizer.go). */
module Sanitizer {
  import opened References
  import opened Graphs
  import opened Ssa

  /** math.MaxInt64, the index of a sanitizer not met so far. */
  const MAX_INT64 := 0x7fff_ffff_ffff_ffff

  /** A program whose instructions are listed by their blocks, none too long for an int. */
  ghost predicate IsListed(p: Program) {
    && p.WellFormed()
    && (forall n | p.IsInstruction(n) :: Position(p, n).Some?)
    && forall b <- p.blocks :: |p.blocks[b].instrs| <= MAX_INT64
  }

  /** When the blocks differ, the answer is that of the dominator tree, whose meaning is given by runs; dominates
      stands for it. */
  method Dominates(p: Program, call: Node, target: Node, dominates: (Block, Block) -> bool) returns (does: bool)
    requires p.WellFormed() && p.IsInstruction(call) && p.IsInstruction(target)
    requires forall b <- p.blocks :: |p.blocks[b].instrs| <= MAX_INT64
    requires forall a, b | b in p.blocks :: dominates(a, b) <==> BlockDominates(p, a, b)
    ensures does <==> IsDominatedBy(p, call, target)
  {
    hide BlockDominates;
    var callBlock, targetBlock := p.BlockOf(call), p.BlockOf(target);
    if p.blocks[callBlock].parent != p.blocks[targetBlock].parent {
      return false;
    }
    if callBlock == targetBlock {
      var sanitizationIdx := MAX_INT64;
      var targetIdx := 0;
      var instrs := p.blocks[callBlock].instrs;
      ghost var c, t := Position(p, call), Position(p, target);
      var i := 0;
      while i < |instrs|
        invariant 0 <= i <= |instrs| && (t.Some? ==> i <= t.value)
        invariant targetIdx == 0
        invariant sanitizationIdx == if c.Some? && c.value < i then c.value else MAX_INT64
      {
        if instrs[i] == call {
          PositionIs(p, call, i);
          sanitizationIdx := i;
        }
        if instrs[i] == target {
          PositionIs(p, target, i);
          targetIdx := i;
          break;
        }
        i := i + 1;
      }
      return sanitizationIdx < targetIdx;
    }
    return dominates(callBlock, targetBlock);
  }

  /** Within a block the call must come first; otherwise its block must dominate the other one. */
  ghost predicate IsDominatedBy(p: Program, call: Node, target: Node)
    requires p.WellFormed() && p.IsInstruction(call) && p.IsInstruction(target)
  {
    var b, b' := p.BlockOf(call), p.BlockOf(target);
    && p.blocks[b].parent == p.blocks[b'].parent
    && if b == b' then
         Position(p, call).Some? && Position(p, target).Some? && Position(p, call).value < Position(p, target).value
       else BlockDominates(p, b, b')
  }

  lemma IsIrreflexive(p: Program, n: Node)
    requires p.WellFormed() && p.IsInstruction(n)
    ensures !IsDominatedBy(p, n, n)
  {
  }

  /** What a run of blocks executes before it arrives at target in its last block: all instructions of the blocks it
      has left, and those in front of target. */
  ghost predicate ExecutedBefore(p: Program, run: seq<Block>, n: Node, target: Node)
    requires p.WellFormed() && p.IsInstruction(target)
    requires run != [] && run[|run| - 1] == p.BlockOf(target) && forall b <- run :: b in p.blocks
  {
    || (exists i | 0 <= i < |run| - 1 :: n in p.blocks[run[i]].instrs)
    || (exists j | 0 <= j < |p.blocks[p.BlockOf(target)].instrs| :: p.blocks[p.BlockOf(target)].instrs[j] == n
          && Position(p, target).Some? && j < Position(p, target).value)
  }

  lemma RunStaysInside(p: Program, f: Function, run: seq<Block>, b: Block)
    requires p.WellFormed() && IsRun(p, f, run, b)
    ensures forall x <- run :: x in p.blocks
  {
    forall i | 0 <= i < |run| ensures run[i] in p.blocks {
      if i > 0 {
        assert Flow(p)(run[i - 1], run[i - 1 + 1]);
      }
    }
  }

  /** An instruction that a call dominates is never executed before the call, on any run of its function. */
  lemma DominatedIsExecutedAfter(p: Program, call: Node, target: Node, run: seq<Block>)
    requires IsListed(p) && p.IsInstruction(call) && p.IsInstruction(target)
    requires IsDominatedBy(p, call, target)
    requires IsRun(p, p.blocks[p.BlockOf(target)].parent, run, p.BlockOf(target))
    ensures forall b <- run :: b in p.blocks
    ensures ExecutedBefore(p, run, call, target)
  {
    RunStaysInside(p, p.blocks[p.BlockOf(target)].parent, run, p.BlockOf(target));
    var b := p.BlockOf(call);
    if b == p.BlockOf(target) {
      assert p.blocks[b].instrs[Position(p, call).value] == call;
    } else {
      var i :| 0 <= i < |run| && run[i] == b;
      assert Position(p, call).Some?;
      assert call in p.blocks[run[i]].instrs;
    }
  }

  /** Conversely, where every run executes the call before it arrives at target, the call dominates it. */
  lemma AlwaysExecutedBeforeIsDominated(p: Program, call: Node, target: Node)
    requires IsListed(p) && NoDeadBlocks(p) && p.IsInstruction(call) && p.IsInstruction(target)
    requires p.blocks[p.BlockOf(call)].parent == p.blocks[p.BlockOf(target)].parent
    requires forall run | IsRun(p, p.blocks[p.BlockOf(target)].parent, run, p.BlockOf(target)) ::
      (forall b <- run :: b in p.blocks) && ExecutedBefore(p, run, call, target)
    ensures IsDominatedBy(p, call, target)
  {
    hide IsRun, ExecutedBefore;
    var f, b := p.blocks[p.BlockOf(target)].parent, p.BlockOf(target);
    if p.BlockOf(call) == b {
      var run :| IsRun(p, f, run, b);
      var first := FirstArrival(p, f, run, b);
      assert ExecutedBefore(p, first, call, target);
      ExecutedInOwnBlock(p, first, call, target);
    } else {
      forall run | IsRun(p, f, run, b) ensures p.BlockOf(call) in run {
        assert ExecutedBefore(p, run, call, target);
        ExecutedInOwnBlock(p, run, call, target);
      }
    }
  }

  /** A run cut at its first visit to b. */
  lemma FirstArrival(p: Program, f: Function, run: seq<Block>, b: Block) returns (first: seq<Block>)
    requires IsRun(p, f, run, b)
    ensures IsRun(p, f, first, b) && b !in first[..|first| - 1]
    decreases |run|
  {
    if i :| 0 <= i < |run| - 1 && run[i] == b {
      assert WalkFrom(Flow(p), run[0], run[..i + 1], b);
      first := FirstArrival(p, f, run[..i + 1], b);
    } else {
      first := run;
    }
  }

  /** An instruction is executed in its own block: one that was left, or, further up, the one of target. */
  lemma ExecutedInOwnBlock(p: Program, run: seq<Block>, n: Node, target: Node)
    requires IsListed(p) && p.IsInstruction(n) && p.IsInstruction(target)
    requires run != [] && run[|run| - 1] == p.BlockOf(target) && forall b <- run :: b in p.blocks
    requires ExecutedBefore(p, run, n, target)
    ensures p.BlockOf(n) in run[..|run| - 1] ||
            (p.BlockOf(n) == p.BlockOf(target) && Position(p, n).value < Position(p, target).value)
  {
    assert p.WellFormed() && Position(p, n).Some? && Position(p, target).Some?;
    hide Program.WellFormed, IsListed;
    if i :| 0 <= i < |run| - 1 && n in p.blocks[run[i]].instrs {
      OwnBlock(p, run[i], n);
      assert run[i] in run[..|run| - 1];
    } else {
      var b := p.BlockOf(target);
      var j :| 0 <= j < |p.blocks[b].instrs| && p.blocks[b].instrs[j] == n && j < Position(p, target).value;
      OwnBlock(p, b, n);
      PositionIs(p, n, j);
    }
  }

  lemma OwnBlock(p: Program, b: Block, n: Node)
    requires p.WellFormed() && b in p.blocks && n in p.blocks[b].instrs
    ensures p.IsInstruction(n) && p.BlockOf(n) == b
  {
  }
}
