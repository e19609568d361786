/** When control flow refuses a node, said of the block listings and the nodes on the way
    (shouldNotTaint in internal/pkg/propagation/propagation.go). */
module FlowLaws {
  import opened References
  import opened Graphs
  import opened Ssa
  import opened TaintSearch

  /** The block's listing has m further down than n. */
  ghost predicate ListsAfter(p: Program, b: Block, n: Node, m: Node) {
    b in p.blocks
    && exists x, y | 0 <= x < y < |p.blocks[b].instrs| :: p.blocks[b].instrs[x] == n && p.blocks[b].instrs[y] == m
  }

  /** Successors lead from block a to block b. */
  ghost predicate LeadsTo(p: Program, a: Block, b: Block) {
    exists walk :: IsBlockWalk(p, a, walk, b)
  }

  ghost predicate IsBlockWalk(p: Program, a: Block, walk: seq<Block>, b: Block) {
    && walk != [] && walk[0] == a && walk[|walk| - 1] == b
    && forall i | 0 <= i < |walk| - 1 :: walk[i] in p.blocks && walk[i + 1] in p.blocks[walk[i]].succs
  }

  /** n is an instruction of block b. */
  predicate IsIn(p: Program, n: Node, b: Block) {
    n in p.nodes && p.nodes[n].block == Some(b)
  }

  /** The last instruction on the trail is the i-th node. */
  ghost predicate IsLast(p: Program, t: Trail, i: nat, b: Block) {
    && i < |t| && IsIn(p, t[i].node, b)
    && forall j | i < j < |t| :: t[j].node !in p.nodes || p.nodes[t[j].node].block.None?
  }

  /** A node is refused for one of three reasons: its block does not list it; the last instruction on the way is in
      another block that does not lead to its own; or it is a call, entered as a referrer, and an instruction on the way
      comes after it in its block. */
  ghost predicate IsRefused(p: Program, t: Trail, n: Node, asReferrer: bool) {
    exists b :: IsIn(p, n, b) && b in p.blocks && IsRefusedIn(p, t, n, asReferrer, b)
  }

  ghost predicate IsRefusedIn(p: Program, t: Trail, n: Node, asReferrer: bool, b: Block)
    requires IsIn(p, n, b) && b in p.blocks
  {
    || n !in p.blocks[b].instrs
    || (exists i, c :: IsLast(p, t, i, c) && c != b && !LeadsTo(p, c, b))
    || (p.nodes[n].kind.Call? && asReferrer
        && exists i | 0 <= i < |t| :: IsIn(p, t[i].node, b) && ListsAfter(p, b, n, t[i].node))
  }

  lemma LeadsToIsReach(p: Program, a: Block, b: Block)
    ensures LeadsTo(p, a, b) <==> Reach(Flow(p), a, b)
  {
    if walk :| IsBlockWalk(p, a, walk, b) {
      assert WalkFrom(Flow(p), a, walk, b);
    }
    if walk :| WalkFrom(Flow(p), a, walk, b) {
      forall i | 0 <= i < |walk| - 1 ensures walk[i] in p.blocks && walk[i + 1] in p.blocks[walk[i]].succs {
        assert Flow(p)(walk[i], walk[i + 1]);
      }
      assert IsBlockWalk(p, a, walk, b);
    }
  }

  lemma {:induction false} LastBlockIs(p: Program, t: Trail, b: Block)
    ensures LastBlock(p, t) == Some(b) <==> exists i :: IsLast(p, t, i, b)
    decreases |t|
  {
    if t != [] {
      var n := |t| - 1;
      if p.IsInstruction(End(t)) {
        assert p.BlockOf(End(t)) == b ==> IsLast(p, t, n, b);
      } else {
        LastBlockIs(p, Before(t), b);
        forall i: nat ensures IsLast(p, t, i, b) <==> IsLast(p, Before(t), i, b) {
        }
      }
    }
  }

  lemma ListedAfter(p: Program, b: Block, n: Node, m: Node)
    requires p.WellFormed() && b in p.blocks && IsIn(p, n, b) && IsIn(p, m, b)
    ensures ListsAfter(p, b, n, m) <==>
            Position(p, n).Some? && Position(p, m).Some? && Position(p, n).value < Position(p, m).value
  {
    var instrs := p.blocks[b].instrs;
    if ListsAfter(p, b, n, m) {
      var x, y :| 0 <= x < y < |instrs| && instrs[x] == n && instrs[y] == m;
      PositionIs(p, n, x);
      PositionIs(p, m, y);
    }
    if Position(p, n).Some? && Position(p, m).Some? && Position(p, n).value < Position(p, m).value {
      assert instrs[Position(p, n).value] == n && instrs[Position(p, m).value] == m;
    }
  }

  /** The highest index is above v exactly when an instruction on the trail is. */
  lemma {:induction false} HighestIndexExceeds(p: Program, t: Trail, b: Block, v: int)
    requires p.WellFormed() && v >= 0
    ensures v < HighestIndex(p, t, b) <==> exists i | 0 <= i < |t| :: IsAbove(p, t[i].node, b, v)
    decreases |t|
  {
    if t != [] {
      HighestIndexExceeds(p, Before(t), b, v);
      if i :| 0 <= i < |t| - 1 && IsAbove(p, t[i].node, b, v) {
        assert Before(t)[i] == t[i];
      }
      if i :| 0 <= i < |Before(t)| && IsAbove(p, Before(t)[i].node, b, v) {
        assert Before(t)[i] == t[i];
      }
    }
  }

  ghost predicate IsAbove(p: Program, n: Node, b: Block, v: int)
    requires p.WellFormed()
  {
    IsIn(p, n, b) && p.IsInstruction(n) && Position(p, n).Some? && v < Position(p, n).value
  }

  /** Flow blocks exactly what is refused. */
  lemma BlockedIff(p: Program, t: Trail, n: Node, asReferrer: bool)
    requires p.WellFormed() && n in p.nodes
    ensures IsBlocked(p, t, Hop(n, asReferrer)) <==> IsRefused(p, t, n, asReferrer)
  {
    if p.IsInstruction(n) {
      var b := p.BlockOf(n);
      assert p.IsWellFormedNode(n);
      assert IsIn(p, n, b) && b in p.blocks;
      LastRefuses(p, t, b);
      if Position(p, n).Some? {
        PastRefuses(p, t, n, b);
      }
    }
  }

  lemma LastRefuses(p: Program, t: Trail, b: Block)
    ensures (exists i, c :: IsLast(p, t, i, c) && c != b && !LeadsTo(p, c, b)) <==>
            var last := LastBlock(p, t); last.Some? && b != last.value && !Reach(Flow(p), last.value, b)
  {
    hide Reach, LeadsTo, IsLast;
    if i, c :| IsLast(p, t, i, c) && c != b && !LeadsTo(p, c, b) {
      LastBlockIs(p, t, c);
      LeadsToIsReach(p, c, b);
    }
    if LastBlock(p, t).Some? {
      var c := LastBlock(p, t).value;
      LastBlockIs(p, t, c);
      LeadsToIsReach(p, c, b);
    }
  }

  lemma PastRefuses(p: Program, t: Trail, n: Node, b: Block)
    requires p.WellFormed() && IsIn(p, n, b) && b in p.blocks && Position(p, n).Some?
    ensures (exists i | 0 <= i < |t| :: IsIn(p, t[i].node, b) && ListsAfter(p, b, n, t[i].node)) <==>
            Position(p, n).value < HighestIndex(p, t, b)
  {
    var v := Position(p, n).value;
    HighestIndexExceeds(p, t, b, v);
    forall m | IsIn(p, m, b) ensures ListsAfter(p, b, n, m) <==> IsAbove(p, m, b, v) {
      ListedAfter(p, b, n, m);
    }
    hide Program.WellFormed, ListsAfter, HighestIndex;
  }

  /** An operand is never refused for its index. */
  lemma OperandsMayLieInThePast(p: Program, t: Trail, n: Node, b: Block)
    requires p.WellFormed() && IsIn(p, n, b) && b in p.blocks && n in p.blocks[b].instrs
    requires forall i, c | IsLast(p, t, i, c) :: c == b || LeadsTo(p, c, b)
    ensures !IsRefused(p, t, n, false)
  {
  }
}
