/** SSA functions as the taint search sees them: nodes with their kinds, operands and referrers, and basic
    blocks. Taken as finite input; go/ssa itself is not part of this model. */
module Ssa {
  import opened References
  import opened Graphs

  datatype Node = Node(id: nat)
  datatype Block = Block(id: nat)

  datatype Direction = SendOnly | RecvOnly

  datatype SelectState = SelectState(dir: Direction, channel: Node, send: Option<Node>)

  /** The builtins that the search treats specially; all others, delete among them, propagate nothing. */
  datatype BuiltinFunction = Append | Copy | OtherBuiltin

  /** What is known about a standard library function. The bitset of positions is the set of its one bits. */
  datatype Summary = Summary(ifTainted: set<nat>, taintedArgs: seq<nat>, taintedRets: seq<nat>)

  /** A call. Arguments come with the answer of canBeTaintedByCall for their type; extractOf gives the Extract among the
      referrers for each position of a tuple result. */
  datatype CallInfo = CallInfo(
    sanitizer: bool,
    builtin: Option<BuiltinFunction>,
    receiver: Option<Node>,
    args: seq<Node>,
    taintable: seq<bool>,
    summary: Option<Summary>,
    results: nat,
    extractOf: map<nat, Node>)

  datatype Kind =
    | Alloc(isArray: bool)
    | Call(call: CallInfo)
    | Go(call: CallInfo)
    | Field(isSource: bool)
    | FieldAddr(isSource: bool)
    | Index(x: Node)
    | IndexAddr(x: Node)
    | Store(addr: Node)
    | MapUpdate(m: Node)
    | Select(states: seq<SelectState>)
    | Send(channel: Node)
    | Slice(x: Node)
    | BinOp | ChangeInterface | ChangeType | Convert | Extract(index: nat)
    | MakeChan | MakeMap | MakeSlice | Phi | Range
    | Const | FreeVar | Global | Lookup | Parameter
    | MakeInterface | TypeAssert | UnOp
    | Builtin | DebugRef | Defer | Function | If | Jump | MakeClosure | Next | Panic | Return | RunDefers
    | Unexpected

  /** block is None for values that are no instructions; referrers is None where the source has a nil list. */
  datatype NodeInfo = NodeInfo(
    kind: Kind,
    operands: seq<Option<Node>>,
    referrers: Option<seq<Node>>,
    taintableType: bool,
    block: Option<Block>)

  datatype BlockInfo = BlockInfo(parent: References.Function, instrs: seq<Node>, succs: seq<Block>)

  /** The blocks where a function begins: its entry and, for a function with deferred calls, its recover block. */
  datatype Program = Program(
    nodes: map<Node, NodeInfo>,
    blocks: map<Block, BlockInfo>,
    entries: map<References.Function, set<Block>>)
  {
    /** The arguments of a call, with the receiver of an invoke call in front. */
    static function Arguments(c: CallInfo): seq<Node> {
      (if c.receiver.Some? then [c.receiver.value] else []) + c.args
    }

    predicate IsInstruction(n: Node) {
      n in nodes && nodes[n].block.Some?
    }

    function BlockOf(n: Node): Block
      requires IsInstruction(n)
    {
      nodes[n].block.value
    }

    /** Everything the search looks up exists, blocks list instructions of theirs once, and the nodes a kind
        singles out are operands of the node (or, for extracts, referrers). */
    ghost predicate WellFormed() {
      && (forall n <- nodes :: IsWellFormedNode(n))
      && (forall b <- blocks :: (forall s <- blocks[b].succs :: s in blocks) && Distinct(blocks[b].instrs))
      && (forall b <- blocks, n <- blocks[b].instrs :: n in nodes && nodes[n].block == Some(b))
      && (forall f <- entries :: entries[f] <= blocks.Keys)
    }

    ghost predicate IsWellFormedNode(n: Node)
      requires n in nodes
    {
      var info := nodes[n];
      && (forall o <- info.operands :: o.Some? ==> o.value in nodes)
      && (info.referrers.Some? ==> forall r <- info.referrers.value :: r in nodes)
      && (info.block.Some? ==> info.block.value in blocks)
      && (info.kind.Call? || info.kind.Go? || info.kind.Select? ==> info.block.Some?)
      && match info.kind
         case Call(c) => IsWellFormedCall(info, c)
         case Go(c) => IsWellFormedCall(info, c)
         case Index(x) => Some(x) in info.operands
         case IndexAddr(x) => Some(x) in info.operands
         case Store(addr) => Some(addr) in info.operands
         case MapUpdate(m) => Some(m) in info.operands
         case Send(channel) => Some(channel) in info.operands
         case Slice(x) => Some(x) in info.operands
         case Select(states) => forall s <- states ::
           Some(s.channel) in info.operands && (s.dir.SendOnly? ==> s.send.Some?)
         case _ => true
    }

    static ghost predicate IsWellFormedCall(info: NodeInfo, c: CallInfo) {
      && (forall a <- Arguments(c) :: Some(a) in info.operands)
      && |c.taintable| == |c.args|
      && (c.builtin == Some(Append) || c.builtin == Some(Copy) ==> |c.args| > 0)
      && (c.summary.Some? ==> forall i <- c.summary.value.taintedArgs :: i < |Arguments(c)|)
      && (c.summary.Some? && info.kind.Call? && info.referrers.Some? && c.results != 1 ==>
            forall i | 0 <= i < |c.summary.value.taintedRets| ::
              i in c.extractOf && c.extractOf[i] in info.referrers.value)
    }
  }

  function Flow(p: Program): Relation<Block> {
    (b, s) => b in p.blocks && s in p.blocks[b].succs
  }

  /** The index of an instruction in its block; a target that its block does not list has none. */
  method IndexInBlock(p: Program, target: Node) returns (index: int, ok: bool)
    requires p.WellFormed() && p.IsInstruction(target)
    ensures Some(index) == (if ok then Position(p, target) else Some(0))
    ensures ok <==> Position(p, target).Some?
  {
    var instrs := p.blocks[p.BlockOf(target)].instrs;
    for i := 0 to |instrs|
      invariant target !in instrs[..i]
    {
      if instrs[i] == target {
        PositionIs(p, target, i);
        return i, true;
      }
    }
    assert target !in instrs;
    return 0, false;
  }

  ghost function Position(p: Program, n: Node): (index: Option<int>)
    requires p.WellFormed() && p.IsInstruction(n)
    ensures index.Some? ==> 0 <= index.value < |p.blocks[p.BlockOf(n)].instrs|
    ensures index.Some? ==> p.blocks[p.BlockOf(n)].instrs[index.value] == n
    ensures index.None? ==> n !in p.blocks[p.BlockOf(n)].instrs
  {
    var instrs := p.blocks[p.BlockOf(n)].instrs;
    if n in instrs then var i :| 0 <= i < |instrs| && instrs[i] == n; Some(i) else None
  }

  lemma PositionIs(p: Program, n: Node, i: int)
    requires p.WellFormed() && p.IsInstruction(n)
    requires 0 <= i < |p.blocks[p.BlockOf(n)].instrs| && p.blocks[p.BlockOf(n)].instrs[i] == n
    ensures Position(p, n) == Some(i)
  {
    assert Distinct(p.blocks[p.BlockOf(n)].instrs);
    assert n in p.blocks[p.BlockOf(n)].instrs;
  }

  // ---- dominance ----

  /** A run of blocks of f to b, from where f begins. */
  ghost predicate IsRun(p: Program, f: References.Function, run: seq<Block>, b: Block): (holds: bool)
    ensures holds ==> run != [] && run[|run| - 1] == b
  {
    f in p.entries && run != [] && run[0] in p.entries[f] && WalkFrom(Flow(p), run[0], run, b)
  }

  /** Every run to b passes through a. */
  ghost predicate BlockDominates(p: Program, a: Block, b: Block) {
    b in p.blocks && forall run | IsRun(p, p.blocks[b].parent, run, b) :: a in run
  }

  /** Every block of every function is on some run of it. */
  ghost predicate NoDeadBlocks(p: Program) {
    forall b <- p.blocks :: exists run :: IsRun(p, p.blocks[b].parent, run, b)
  }

  lemma DominanceImpliesReach(p: Program, a: Block, b: Block)
    requires NoDeadBlocks(p) && BlockDominates(p, a, b)
    ensures Reach(Flow(p), a, b)
  {
    var run :| IsRun(p, p.blocks[b].parent, run, b);
    var i :| 0 <= i < |run| && run[i] == a;
    assert WalkFrom(Flow(p), a, run[i..], b);
  }
}
