/** The taint search (internal/pkg/propagation/propagation.go, stdlib.go). */
module Propagation {
  import opened References
  import opened Graphs
  import opened Ssa
  import opened TaintSearch
  import opened FlowLaws
  import opened HopLaws
  import Sanitizer

  /** Highest index of an instruction visited in each block; absent means zero. */
  type MaxInstrReached = map<Block, int>

  function Reached(mir: MaxInstrReached, b: Block): int {
    if b in mir then mir[b] else 0
  }

  /** The flow state that the search passes along describes the trail. */
  ghost predicate Tracks(p: Program, t: Trail, mir: MaxInstrReached, last: Option<Block>)
    requires p.WellFormed()
  {
    last == LastBlock(p, t) && forall b :: Reached(mir, b) == HighestIndex(p, t, b)
  }

  /** The input: a well-formed program without dead blocks, and what its dominator tree answers. */
  ghost predicate IsSetting(p: Program, dominates: (Block, Block) -> bool) {
    && p.WellFormed() && NoDeadBlocks(p)
    && forall a, b | b in p.blocks :: dominates(a, b) <==> BlockDominates(p, a, b)
  }

  /** The first loop of taintSelect: the tuple position for each state, of use for those that receive. */
  method ExtractIndices(states: seq<SelectState>) returns (extractIndex: seq<nat>)
    ensures |extractIndex| == |states|
    ensures forall k | 0 <= k < |states| ::
              extractIndex[k] == ExtractIndex(states, k) == 2 + |ReceivesBefore(states, k)|
  {
    var recvIndex := 0;
    extractIndex := [];
    for k := 0 to |states|
      invariant |extractIndex| == k && recvIndex + 2 == ExtractIndex(states, k)
      invariant forall j | 0 <= j < k :: extractIndex[j] == ExtractIndex(states, j)
    {
      extractIndex := extractIndex + [recvIndex + 2];
      if states[k].dir.RecvOnly? {
        recvIndex := recvIndex + 1;
      }
    }
    forall k | 0 <= k < |states| ensures ExtractIndex(states, k) == 2 + |ReceivesBefore(states, k)| {
      ExtractIndexCounts(states, k);
    }
  }

  class Propagation {
    const p: Program
    const root: Node
    const dominates: (Block, Block) -> bool
    var tainted: set<Node>
    var preOrder: seq<Node>
    var sanitizers: seq<Node>
    ghost var trails: seq<Trail>

    constructor (p: Program, root: Node, dominates: (Block, Block) -> bool)
      requires IsSetting(p, dominates)
      ensures Valid() && this.p == p && this.root == root && this.dominates == dominates
      ensures preOrder == [] && sanitizers == [] && trails == []
    {
      this.p, this.root, this.dominates := p, root, dominates;
      tainted, preOrder, sanitizers, trails := {}, [], [], [];
    }

    ghost function Snapshot(): Search
      reads this
    {
      Search(preOrder, trails, sanitizers)
    }

    ghost predicate Valid()
      reads this
    {
      p.WellFormed() && IsSetting(p, dominates) && IsValid(p, root, Snapshot()) && tainted == Tainted(Snapshot())
    }

    /** The search stands at n, which trail t led to. */
    ghost predicate IsAt(n: Node, mir: MaxInstrReached, last: Option<Block>, t: Trail)
      reads this
    {
      Valid() && t != [] && t in trails && End(t) == n && n in p.nodes && Tracks(p, t, mir, last)
    }

    /** canReach. */
    method CanReach(start: Block, dest: Block) returns (reaches: bool)
      requires IsSetting(p, dominates) && start in p.blocks && dest in p.blocks
      ensures reaches <==> Reach(Flow(p), start, dest)
    {
      ShortcutIsSound(p, dominates, start, dest);
      if dominates(start, dest) {
        return true;
      }
      reaches := SearchBlocks(p, start, dest);
    }

    method ShouldNotTaint(n: Node, mir: MaxInstrReached, last: Option<Block>, isReferrer: bool, ghost t: Trail)
      returns (no: bool)
      requires Valid() && n in p.nodes && Tracks(p, t, mir, last)
      ensures no <==> n in tainted || IsRefused(p, t, n, isReferrer)
      ensures no <==> n in tainted || IsBlocked(p, t, Hop(n, isReferrer))
    {
      BlockedIff(p, t, n, isReferrer);
      if n in tainted {
        return true;
      }
      if p.IsInstruction(n) {
        var instrIndex, ok := IndexInBlock(p, n);
        if !ok {
          return true;
        }
        var b := p.BlockOf(n);
        if last.Some? && b != last.value {
          LastBlockExists(p, t);
          var reaches := CanReach(last.value, b);
          if !reaches {
            return true;
          }
        }
        if p.nodes[n].kind.Call? && instrIndex < Reached(mir, b) && isReferrer {
          return true;
        }
      }
      return false;
    }

    /** taint: visits n, which h names together with how the search arrived. */
    method Taint(n: Node, mir: MaxInstrReached, last: Option<Block>, isReferrer: bool, ghost t: Trail)
      requires Valid() && n in p.nodes && Tracks(p, t, mir, last) && IsStart(t)
      requires CanEnter(p, root, t, Hop(n, isReferrer), tainted)
      modifies this
      ensures Valid() && Continues(p, old(Snapshot()), Snapshot())
      ensures IsFollowed(p, Snapshot(), t, Hop(n, isReferrer))
      ensures n !in old(tainted) && !IsBlocked(p, t, Hop(n, isReferrer)) ==> old(preOrder) + [n] <= preOrder
      decreases p.nodes.Keys - tainted, 0
    {
      hide IsValid, Continues, IsHandled, IsTrail, CanEnter, Tracks, IsSetting, Program.WellFormed;
      ghost var s, h := Snapshot(), Hop(n, isReferrer);
      var stop := ShouldNotTaint(n, mir, last, isReferrer, t);
      if stop {
        ContinuesReflexive(p, root, s);
        return;
      }
      EnterNode(p, root, s, t, h);
      preOrder := preOrder + [n];
      tainted := tainted + {n};
      trails := trails + [t + [h]];
      var mirCopy, lastBlockVisited := mir, last;
      if p.IsInstruction(n) {
        var instrIndex, ok := IndexInBlock(p, n);
        if !ok {
          assert false;
          return;
        }
        var b := p.BlockOf(n);
        if Reached(mirCopy, b) < instrIndex {
          mirCopy := mirCopy[b := instrIndex];
        }
        lastBlockVisited := Some(b);
      }
      TracksOn(p, t, mir, last, h, mirCopy, lastBlockVisited);
      TaintNeighbors(n, mirCopy, lastBlockVisited, t + [h]);
      LengthsAgree(p, root, s);
      NodeDone(p, s, t, h, Snapshot());
    }

    /** The trail is empty, or one that tainted a node. */
    ghost predicate IsStart(t: Trail)
      reads this
    {
      t == [] || t in trails
    }

    method TaintReferrers(n: Node, mir: MaxInstrReached, last: Option<Block>, ghost t: Trail)
      requires Valid() && n in p.nodes && Tracks(p, t, mir, last) && IsStart(t)
      requires forall h | IsReferrerHop(p, n, h) :: CanEnter(p, root, t, h, tainted)
      modifies this
      ensures Valid() && Continues(p, old(Snapshot()), Snapshot())
      ensures forall h | IsReferrerHop(p, n, h) :: IsFollowed(p, Snapshot(), t, h)
      decreases p.nodes.Keys - tainted, 1
    {
      hide IsValid, Continues, IsFollowed, CanEnter, Tracks, IsSetting, Program.WellFormed;
      ghost var s := Snapshot();
      ContinuesReflexive(p, root, s);
      if !p.nodes[n].taintableType || p.nodes[n].referrers.None? {
        return;
      }
      var referrers := p.nodes[n].referrers.value;
      ReferrersExist(p, n);
      for i := 0 to |referrers|
        invariant Valid() && Continues(p, s, Snapshot()) && IsStart(t) && old(tainted) <= tainted
        invariant forall j | 0 <= j < i :: IsFollowed(p, Snapshot(), t, Hop(referrers[j], true))
      {
        ghost var now, h := Snapshot(), Hop(referrers[i], true);
        assert IsReferrerHop(p, n, h);
        EnterLater(p, root, t, h, old(tainted), tainted);
        Taint(referrers[i], mir, last, true, t);
        Progress(p, s, now, Snapshot(), t);
      }
    }

    method TaintOperands(n: Node, mir: MaxInstrReached, last: Option<Block>, ghost t: Trail)
      requires Valid() && n in p.nodes && Tracks(p, t, mir, last) && IsStart(t)
      requires forall h | IsOperandHop(p, n, h) :: CanEnter(p, root, t, h, tainted)
      modifies this
      ensures Valid() && Continues(p, old(Snapshot()), Snapshot())
      ensures forall h | IsOperandHop(p, n, h) :: IsFollowed(p, Snapshot(), t, h)
      decreases p.nodes.Keys - tainted, 1
    {
      hide IsValid, Continues, IsFollowed, CanEnter, Tracks, IsSetting, Program.WellFormed;
      ghost var s := Snapshot();
      ContinuesReflexive(p, root, s);
      var operands := p.nodes[n].operands;
      OperandsExist(p, n);
      for i := 0 to |operands|
        invariant Valid() && Continues(p, s, Snapshot()) && IsStart(t) && old(tainted) <= tainted
        invariant forall j | 0 <= j < i && operands[j].Some? ::
                    IsFollowed(p, Snapshot(), t, Hop(operands[j].value, false))
      {
        if operands[i].None? {
          continue;
        }
        ghost var now, h := Snapshot(), Hop(operands[i].value, false);
        assert IsOperandHop(p, n, h);
        EnterLater(p, root, t, h, old(tainted), tainted);
        Taint(operands[i].value, mir, last, false, t);
        Progress(p, s, now, Snapshot(), t);
      }
    }

    /** taintNeighbors: dispatches on the kind. */
    method TaintNeighbors(n: Node, mir: MaxInstrReached, last: Option<Block>, ghost t: Trail)
      requires IsAt(n, mir, last, t)
      modifies this
      ensures Valid() && Continues(p, old(Snapshot()), Snapshot())
      ensures IsHandled(p, Snapshot(), t, old(tainted))
      decreases p.nodes.Keys - tainted, 5
    {
      hide IsValid, Continues, IsFollowed, Tracks, IsSetting, Program.WellFormed;
      ContinuesReflexive(p, root, Snapshot());
      NodeIsWellFormed(p, n);
      match p.nodes[n].kind {
        case Alloc(isArray) =>
          if isArray {
            TaintReferrers(n, mir, last, t);
          }
        case Call(c) =>
          TaintCall(n, c, mir, last, t);
        case Go(c) =>
          TaintStdlibCall(n, c, mir, last, t);
        case Field(isSource) =>
          TaintField(n, isSource, mir, last, t);
        case FieldAddr(isSource) =>
          TaintField(n, isSource, mir, last, t);
        case Index(x) =>
          TaintReferrersAnd(n, x, mir, last, t);
        case IndexAddr(x) =>
          TaintReferrersAnd(n, x, mir, last, t);
        case Store(addr) =>
          Taint(addr, mir, last, false, t);
        case MapUpdate(m) =>
          Taint(m, mir, last, false, t);
        case Select(states) =>
          TaintSelect(n, states, mir, last, t);
        case Send(channel) =>
          Taint(channel, mir, last, false, t);
        case Slice(x) =>
          TaintReferrersAnd(n, x, mir, last, t);
        case BinOp | ChangeInterface | ChangeType | Convert | Extract(_) =>
          TaintReferrers(n, mir, last, t);
        case MakeChan | MakeMap | MakeSlice | Phi | Range =>
          TaintReferrers(n, mir, last, t);
        case Const | FreeVar | Global | Lookup | Parameter =>
          TaintReferrers(n, mir, last, t);
        case MakeInterface | TypeAssert | UnOp =>
          TaintReferrersAndOperands(n, mir, last, t);
        case Builtin | DebugRef | Defer | Function | If | Jump | MakeClosure | Next | Panic | Return | RunDefers =>
        case Unexpected =>
      }
    }

    /** The referrers of n and the operand x. */
    method TaintReferrersAnd(n: Node, x: Node, mir: MaxInstrReached, last: Option<Block>, ghost t: Trail)
      requires IsAt(n, mir, last, t) && Some(x) in p.nodes[n].operands
      requires forall h | IsReferrerHop(p, n, h) || h == Hop(x, false) :: IsStaticHop(p, n, h)
      modifies this
      ensures Valid() && Continues(p, old(Snapshot()), Snapshot())
      ensures forall h | IsReferrerHop(p, n, h) || h == Hop(x, false) :: IsFollowed(p, Snapshot(), t, h)
      decreases p.nodes.Keys - tainted, 2
    {
      hide IsValid, Continues, IsFollowed, Tracks, IsSetting, Program.WellFormed, IsStaticHop;
      ghost var s := Snapshot();
      OperandsExist(p, n);
      TaintReferrers(n, mir, last, t);
      ghost var s1 := Snapshot();
      ContinuesGrows(p, s, s1);
      Taint(x, mir, last, false, t);
      Progress(p, s, s1, Snapshot(), t);
    }

    method TaintReferrersAndOperands(n: Node, mir: MaxInstrReached, last: Option<Block>, ghost t: Trail)
      requires IsAt(n, mir, last, t)
      requires forall h | IsReferrerHop(p, n, h) || IsOperandHop(p, n, h) :: IsStaticHop(p, n, h)
      modifies this
      ensures Valid() && Continues(p, old(Snapshot()), Snapshot())
      ensures forall h | IsReferrerHop(p, n, h) || IsOperandHop(p, n, h) :: IsFollowed(p, Snapshot(), t, h)
      decreases p.nodes.Keys - tainted, 2
    {
      hide IsValid, Continues, IsFollowed, Tracks, IsSetting, Program.WellFormed, IsStaticHop;
      ghost var s := Snapshot();
      TaintReferrers(n, mir, last, t);
      ghost var s1 := Snapshot();
      ContinuesGrows(p, s, s1);
      TaintOperands(n, mir, last, t);
      Progress(p, s, s1, Snapshot(), t);
    }

    method TaintField(n: Node, isSource: bool, mir: MaxInstrReached, last: Option<Block>, ghost t: Trail)
      requires IsAt(n, mir, last, t)
      requires p.nodes[n].kind == Kind.Field(isSource) || p.nodes[n].kind == FieldAddr(isSource)
      modifies this
      ensures Valid() && Continues(p, old(Snapshot()), Snapshot())
      ensures IsHandled(p, Snapshot(), t, old(tainted))
      decreases p.nodes.Keys - tainted, 4
    {
      hide IsValid, Continues, IsFollowed, Tracks, IsSetting, Program.WellFormed;
      ContinuesReflexive(p, root, Snapshot());
      if !isSource {
        return;
      }
      TaintReferrersAndOperands(n, mir, last, t);
    }

    method TaintCall(n: Node, c: CallInfo, mir: MaxInstrReached, last: Option<Block>, ghost t: Trail)
      requires IsAt(n, mir, last, t) && p.nodes[n].kind == Call(c)
      modifies this
      ensures Valid() && Continues(p, old(Snapshot()), Snapshot())
      ensures IsHandled(p, Snapshot(), t, old(tainted))
      decreases p.nodes.Keys - tainted, 4
    {
      hide IsValid, Continues, IsFollowed, Tracks, IsSetting, Program.WellFormed;
      if c.sanitizer {
        RecordSanitizer(p, root, Snapshot(), n, t, tainted);
        sanitizers := sanitizers + [n];
        return;
      }
      if c.builtin.Some? {
        TaintBuiltin(n, c, mir, last, t);
        return;
      }
      TaintStdlibCall(n, c, mir, last, t);
    }

    method TaintBuiltin(n: Node, c: CallInfo, mir: MaxInstrReached, last: Option<Block>, ghost t: Trail)
      requires IsAt(n, mir, last, t) && p.nodes[n].kind == Call(c) && !c.sanitizer && c.builtin.Some?
      modifies this
      ensures Valid() && Continues(p, old(Snapshot()), Snapshot())
      ensures IsHandled(p, Snapshot(), t, old(tainted))
      decreases p.nodes.Keys - tainted, 3
    {
      hide IsValid, Continues, IsFollowed, Tracks, IsSetting, Program.WellFormed;
      ghost var s := Snapshot();
      NodeIsWellFormed(p, n);
      ContinuesReflexive(p, root, s);
      match c.builtin.value {
        case Append =>
          TaintCallArg(n, c, mir, last, t);
          ghost var s1 := Snapshot();
          ContinuesGrows(p, s, s1);
          TaintReferrers(n, mir, last, t);
          Progress(p, s, s1, Snapshot(), t);
        case Copy =>
          TaintCallArg(n, c, mir, last, t);
        case OtherBuiltin =>
      }
    }

    /** taintCallArg for the first argument of a builtin. */
    method TaintCallArg(n: Node, c: CallInfo, mir: MaxInstrReached, last: Option<Block>, ghost t: Trail)
      requires IsAt(n, mir, last, t) && p.nodes[n].kind == Call(c) && |c.args| > 0 && |c.taintable| == |c.args|
      requires Some(c.args[0]) in p.nodes[n].operands
      requires forall h | IsFirstArgument(c, h) :: IsStaticHop(p, n, h)
      modifies this
      ensures Valid() && Continues(p, old(Snapshot()), Snapshot())
      ensures forall h | IsFirstArgument(c, h) :: IsFollowed(p, Snapshot(), t, h)
      decreases p.nodes.Keys - tainted, 1
    {
      hide IsValid, Continues, IsFollowed, Tracks, IsSetting, Program.WellFormed, IsStaticHop;
      ContinuesReflexive(p, root, Snapshot());
      OperandsExist(p, n);
      if c.taintable[0] {
        assert IsFirstArgument(c, Hop(c.args[0], false));
        Taint(c.args[0], mir, last, false, t);
      }
    }

    /** taintStdlibCall: if a position of the bitset holds a tainted argument, the listed arguments and results are
        tainted. */
    method TaintStdlibCall(n: Node, c: CallInfo, mir: MaxInstrReached, last: Option<Block>, ghost t: Trail)
      requires IsAt(n, mir, last, t)
      requires (p.nodes[n].kind == Call(c) && !c.sanitizer && c.builtin.None?) || p.nodes[n].kind == Go(c)
      modifies this
      ensures Valid() && Continues(p, old(Snapshot()), Snapshot())
      ensures IsHandled(p, Snapshot(), t, old(tainted))
      ensures !GateOpens(c, old(tainted)) ==> Snapshot() == old(Snapshot())
      ensures GateOpens(c, old(tainted)) ==>
                forall x | IsListedArgument(c, x) :: x in tainted || IsRefused(p, t, x, false)
      decreases p.nodes.Keys - tainted, 3
    {
      hide IsValid, Continues, IsFollowed, Tracks, IsSetting, Program.WellFormed;
      hide IsRefused, IsListedArgument, GateOpens;
      ghost var s := Snapshot();
      NodeIsWellFormed(p, n);
      ContinuesReflexive(p, root, s);
      GateIff(c, tainted);
      if c.summary.None? {
        return;
      }
      var summ := c.summary.value;
      var args := Program.Arguments(c);
      var bits: set<nat> := {};
      for i := 0 to |args|
        invariant bits == set j | 0 <= j < i && j < 64 && args[j] in tainted
      {
        // A shift by 64 or more leaves no bit.
        if args[i] in tainted && i < 64 {
          bits := bits + {i};
        }
      }
      GateIsOpenIff(c, bits, tainted);
      if bits * summ.ifTainted == {} {
        return;
      }
      TaintArguments(n, c, mir, last, t);
      ghost var s1 := Snapshot();
      ContinuesGrows(p, s, s1);
      ArgumentsDone(p, s1, n, c, t);
      if p.nodes[n].kind.Go? || p.nodes[n].referrers.None? {
        return;
      }
      TaintResults(n, c, mir, last, t);
      Progress(p, s, s1, Snapshot(), t);
      ArgumentsDone(p, Snapshot(), n, c, t);
    }

    method TaintArguments(n: Node, c: CallInfo, mir: MaxInstrReached, last: Option<Block>, ghost t: Trail)
      requires IsAt(n, mir, last, t) && IsGateOpen(c, tainted)
      requires (p.nodes[n].kind == Call(c) && !c.sanitizer && c.builtin.None?) || p.nodes[n].kind == Go(c)
      modifies this
      ensures Valid() && Continues(p, old(Snapshot()), Snapshot())
      ensures forall h | IsTaintedArgument(c, h) :: IsFollowed(p, Snapshot(), t, h)
      decreases p.nodes.Keys - tainted, 1
    {
      hide IsValid, Continues, IsFollowed, Tracks, IsSetting, Program.WellFormed;
      ghost var s := Snapshot();
      ContinuesReflexive(p, root, s);
      var args, taintedArgs := Program.Arguments(c), c.summary.value.taintedArgs;
      for i := 0 to |taintedArgs|
        invariant Valid() && Continues(p, s, Snapshot()) && IsStart(t) && old(tainted) <= tainted
        invariant forall j | 0 <= j < i && taintedArgs[j] < |args| ::
                    IsFollowed(p, Snapshot(), t, Hop(args[taintedArgs[j]], false))
      {
        ghost var now := Snapshot();
        ArgumentIsHop(p, n, c, taintedArgs[i], old(tainted));
        var a := args[taintedArgs[i]];
        EnterLater(p, root, t, Hop(a, false), old(tainted), tainted);
        Taint(a, mir, last, false, t);
        Progress(p, s, now, Snapshot(), t);
      }
    }

    method TaintResults(n: Node, c: CallInfo, mir: MaxInstrReached, last: Option<Block>, ghost t: Trail)
      requires IsAt(n, mir, last, t) && IsGateOpen(c, tainted)
      requires p.nodes[n].kind == Call(c) && !c.sanitizer && c.builtin.None? && p.nodes[n].referrers.Some?
      modifies this
      ensures Valid() && Continues(p, old(Snapshot()), Snapshot())
      ensures forall h | IsTaintedResult(p, n, c, h) :: IsFollowed(p, Snapshot(), t, h)
      decreases p.nodes.Keys - tainted, 2
    {
      hide IsValid, Continues, IsFollowed, Tracks, IsSetting, Program.WellFormed;
      ghost var s := Snapshot();
      ContinuesReflexive(p, root, s);
      var taintedRets := c.summary.value.taintedRets;
      if c.results == 1 {
        if |taintedRets| > 0 {
          TaintReferrers(n, mir, last, t);
        }
        return;
      }
      // The source ranges over the positions of TaintedRets, not over its values.
      for i := 0 to |taintedRets|
        invariant Valid() && Continues(p, s, Snapshot()) && IsStart(t) && old(tainted) <= tainted
        invariant forall j | 0 <= j < i && j in c.extractOf :: IsFollowed(p, Snapshot(), t, Hop(c.extractOf[j], true))
      {
        ghost var now := Snapshot();
        ResultIsHop(p, n, c, i, old(tainted));
        var e := c.extractOf[i];
        EnterLater(p, root, t, Hop(e, true), old(tainted), tainted);
        Taint(e, mir, last, true, t);
        Progress(p, s, now, Snapshot(), t);
      }
    }

    method TaintSelect(n: Node, states: seq<SelectState>, mir: MaxInstrReached, last: Option<Block>, ghost t: Trail)
      requires IsAt(n, mir, last, t) && p.nodes[n].kind == Select(states)
      modifies this
      ensures Valid() && Continues(p, old(Snapshot()), Snapshot())
      ensures IsHandled(p, Snapshot(), t, old(tainted))
      decreases p.nodes.Keys - tainted, 4
    {
      hide IsValid, Continues, IsFollowed, Tracks, IsSetting, Program.WellFormed;
      ghost var s := Snapshot();
      ContinuesReflexive(p, root, s);
      var extractIndex := ExtractIndices(states);
      for k := 0 to |states|
        invariant Valid() && Continues(p, s, Snapshot()) && IsAt(n, mir, last, t) && old(tainted) <= tainted
        invariant forall j, h | 0 <= j < k && IsSelectHop(p, n, states, j, h, old(tainted)) ::
                    IsFollowed(p, Snapshot(), t, h)
      {
        ghost var now := Snapshot();
        TaintSelectState(n, states, k, extractIndex[k], old(tainted), mir, last, t);
        Progress(p, s, now, Snapshot(), t);
      }
    }

    /** The second loop of taintSelect, for one state. */
    method TaintSelectState(n: Node, states: seq<SelectState>, k: nat, index: nat, ghost before: set<Node>,
                            mir: MaxInstrReached, last: Option<Block>, ghost t: Trail)
      requires IsAt(n, mir, last, t) && p.nodes[n].kind == Select(states)
      requires k < |states| && index == ExtractIndex(states, k) && before <= tainted
      modifies this
      ensures Valid() && Continues(p, old(Snapshot()), Snapshot())
      ensures forall h | IsSelectHop(p, n, states, k, h, before) :: IsFollowed(p, Snapshot(), t, h)
      decreases p.nodes.Keys - tainted, 2
    {
      hide IsValid, Continues, IsFollowed, Tracks, IsSetting, Program.WellFormed;
      ContinuesReflexive(p, root, Snapshot());
      SelectNodesExist(p, n, states, k);
      match states[k].dir {
        case SendOnly =>
          if states[k].send.value in tainted {
            SelectIsHop(p, n, states, k, Hop(states[k].channel, false), tainted);
            Taint(states[k].channel, mir, last, false, t);
          }
        case RecvOnly =>
          if states[k].channel in tainted && p.nodes[n].referrers.Some? {
            TaintExtracts(n, states, k, index, mir, last, t);
          }
      }
    }

    /** The Extracts of what receive state k yields. */
    method TaintExtracts(n: Node, states: seq<SelectState>, k: nat, index: nat, mir: MaxInstrReached,
                         last: Option<Block>, ghost t: Trail)
      requires IsAt(n, mir, last, t) && p.nodes[n].kind == Select(states) && p.nodes[n].referrers.Some?
      requires k < |states| && states[k].dir.RecvOnly? && states[k].channel in tainted
      requires index == ExtractIndex(states, k)
      modifies this
      ensures Valid() && Continues(p, old(Snapshot()), Snapshot())
      ensures forall h | IsSelectHop(p, n, states, k, h, old(tainted)) :: IsFollowed(p, Snapshot(), t, h)
      decreases p.nodes.Keys - tainted, 1
    {
      hide IsValid, Continues, IsFollowed, Tracks, IsSetting, Program.WellFormed;
      ghost var s := Snapshot();
      ContinuesReflexive(p, root, s);
      ReferrersExist(p, n);
      var referrers := p.nodes[n].referrers.value;
      for i := 0 to |referrers|
        invariant Valid() && Continues(p, s, Snapshot()) && IsStart(t) && old(tainted) <= tainted
        invariant forall j | 0 <= j < i && p.nodes[referrers[j]].kind == Extract(index) ::
          IsFollowed(p, Snapshot(), t, Hop(referrers[j], false))
      {
        var r := referrers[i];
        if p.nodes[r].kind != Extract(index) {
          continue;
        }
        ghost var now := Snapshot();
        SelectIsHop(p, n, states, k, Hop(r, false), old(tainted));
        EnterLater(p, root, t, Hop(r, false), old(tainted), tainted);
        Taint(r, mir, last, false, t);
        Progress(p, s, now, Snapshot(), t);
      }
    }

    /** IsTainted: tainted, and not dominated by a sanitizer call that the search met. */
    method IsTainted(instr: Node) returns (yes: bool)
      requires Valid() && Sanitizer.IsListed(p) && p.IsInstruction(instr)
      ensures yes <==> instr in tainted && !IsSanitizedAt(p, sanitizers, instr)
    {
      if instr !in tainted {
        return false;
      }
      SanitizersAreCalls(p, root, Snapshot());
      var sanitized := SanitizedAt(p, sanitizers, instr, dominates);
      return !sanitized;
    }
  }

  /** isSanitizedAt. */
  method SanitizedAt(p: Program, sanitizers: seq<Node>, instr: Node, dominates: (Block, Block) -> bool)
    returns (yes: bool)
    requires Sanitizer.IsListed(p) && p.IsInstruction(instr) && forall s <- sanitizers :: p.IsInstruction(s)
    requires forall a, b | b in p.blocks :: dominates(a, b) <==> BlockDominates(p, a, b)
    ensures yes <==> IsSanitizedAt(p, sanitizers, instr)
  {
    assert p.WellFormed();
    hide Program.WellFormed, BlockDominates, Sanitizer.IsListed, Sanitizer.IsDominatedBy;
    for i := 0 to |sanitizers|
      invariant forall j | 0 <= j < i :: !Sanitizer.IsDominatedBy(p, sanitizers[j], instr)
    {
      var dominated := Sanitizer.Dominates(p, sanitizers[i], instr, dominates);
      if dominated {
        return true;
      }
    }
    return false;
  }

  lemma SanitizersAreCalls(p: Program, root: Node, s: Search)
    requires p.WellFormed() && IsValid(p, root, s)
    ensures forall n <- s.sanitizers :: p.IsInstruction(n)
  {
    forall n <- s.sanitizers ensures p.IsInstruction(n) {
      assert IsSanitizerCall(p, n) && p.IsWellFormedNode(n);
    }
  }

  ghost predicate IsSanitizedAt(p: Program, sanitizers: seq<Node>, instr: Node)
    requires p.WellFormed() && p.IsInstruction(instr)
  {
    exists s <- sanitizers :: p.IsInstruction(s) && Sanitizer.IsDominatedBy(p, s, instr)
  }

  /** Taint: the search from the root, and then, with the flow state forgotten, the root's direct referrers
      once more. */
  method Taint(p: Program, root: Node, dominates: (Block, Block) -> bool) returns (prop: Propagation)
    requires IsSetting(p, dominates) && root in p.nodes
    ensures fresh(prop) && prop.Valid() && prop.p == p && prop.root == root
    ensures IsFinished(p, prop.Snapshot())
    ensures !IsRefused(p, [], root, false) ==> prop.preOrder != [] && prop.preOrder[0] == root
    ensures forall r | IsVisitedReferrer(p, root, r) :: r in prop.preOrder || IsRefused(p, [], r, true)
  {
    hide IsHandled, IsValid, IsBlocked, IsRefused, Program.WellFormed;
    BlockedIff(p, [], root, false);
    prop := new Propagation(p, root, dominates);
    ghost var s0 := prop.Snapshot();
    StartTracks(p);
    prop.Taint(root, map[], None, false, []);
    ghost var s1 := prop.Snapshot();
    prop.TaintReferrers(root, map[], None, []);
    SearchIsDone(p, root, s0, s1, prop.Snapshot());
    ReferrersExist(p, root);
    forall r | IsVisitedReferrer(p, root, r) ensures r in prop.preOrder || IsRefused(p, [], r, true) {
      assert IsReferrerHop(p, root, Hop(r, true));
      BlockedIff(p, [], r, true);
    }
  }

  lemma StartTracks(p: Program)
    requires p.WellFormed()
    ensures Tracks(p, [], map[], None)
  {
  }

  lemma SearchIsDone(p: Program, root: Node, s0: Search, s1: Search, s2: Search)
    requires p.WellFormed()
    requires s0.preOrder == [] && s0.trails == [] && Continues(p, s0, s1) && Continues(p, s1, s2)
    requires !IsBlocked(p, [], Hop(root, false)) ==> [root] <= s1.preOrder
    ensures IsFinished(p, s2)
    ensures !IsBlocked(p, [], Hop(root, false)) ==> s2.preOrder != [] && s2.preOrder[0] == root
  {
    ContinuesTransitive(p, s0, s1, s2);
  }

  // ---- steps of the search ----

  lemma ContinuesReflexive(p: Program, root: Node, s: Search)
    requires p.WellFormed() && IsValid(p, root, s)
    ensures Continues(p, s, s)
  {
  }

  lemma NodeIsWellFormed(p: Program, n: Node)
    requires p.WellFormed() && n in p.nodes
    ensures p.IsWellFormedNode(n)
  {
  }

  lemma ContinuesGrows(p: Program, s: Search, s': Search)
    requires p.WellFormed() && Continues(p, s, s')
    ensures Tainted(s) <= Tainted(s') && forall u <- s.trails :: u in s'.trails
  {
    TaintedGrows(s, s');
    assert s'.trails == s.trails + s'.trails[|s.trails|..];
  }

  lemma LengthsAgree(p: Program, root: Node, s: Search)
    requires p.WellFormed() && IsValid(p, root, s)
    ensures |s.preOrder| == |s.trails|
  {
  }

  /** Between two visits from one node: the search goes on, what was followed stays so. */
  lemma Progress(p: Program, s: Search, now: Search, s': Search, t: Trail)
    requires p.WellFormed() && Continues(p, s, now) && Continues(p, now, s')
    ensures Continues(p, s, s') && Tainted(s) <= Tainted(s')
    ensures forall h | IsFollowed(p, now, t, h) :: IsFollowed(p, s', t, h)
    ensures forall u <- s.trails :: u in s'.trails
  {
    ContinuesTransitive(p, s, now, s');
    TaintedGrows(s, s');
    TaintedGrows(now, s');
    assert s'.trails == s.trails + s'.trails[|s.trails|..];
  }

  lemma EnterLater(p: Program, root: Node, t: Trail, h: Hop, tainted: set<Node>, more: set<Node>)
    requires CanEnter(p, root, t, h, tainted) && tainted <= more
    ensures CanEnter(p, root, t, h, more)
  {
    if t != [] && IsConditionalHop(p, End(t), h, tainted) {
      ConditionalHopStays(p, End(t), h, tainted, more);
    }
  }

  lemma EnterNode(p: Program, root: Node, s: Search, t: Trail, h: Hop)
    requires p.WellFormed() && IsValid(p, root, s) && (t == [] || t in s.trails)
    requires h.node in p.nodes && h.node !in Tainted(s)
    requires CanEnter(p, root, t, h, Tainted(s)) && !IsBlocked(p, t, h)
    ensures IsValid(p, root, Push(s, t, h)) && Tainted(Push(s, t, h)) == Tainted(s) + {h.node}
  {
    if t != [] {
      var i :| 0 <= i < |s.trails| && s.trails[i] == t;
      assert HasTrail(p, root, s, i);
      assert s.preOrder[i] in Tainted(s);
    }
    PushIsValid(p, root, s, t, h);
  }

  lemma NodeDone(p: Program, s: Search, t: Trail, h: Hop, s': Search)
    requires p.WellFormed() && |s.preOrder| == |s.trails|
    requires Continues(p, Push(s, t, h), s') && IsHandled(p, s', t + [h], Tainted(Push(s, t, h)))
    ensures Continues(p, s, s') && IsFollowed(p, s', t, h) && s.preOrder + [h.node] <= s'.preOrder
  {
    var s1 := Push(s, t, h);
    TaintedGrows(s1, s');
    assert h.node == s1.preOrder[|s.preOrder|];
    assert h.node in Tainted(s1);
    assert s'.trails[|s.trails|] == s1.trails[|s.trails|] == t + [h];
    assert s'.preOrder[..|s.preOrder| + 1] == s1.preOrder;
    assert IsHandledAt(p, s', |s.trails|);
  }

  lemma TracksOn(p: Program, t: Trail, mir: MaxInstrReached, last: Option<Block>, h: Hop, mir': MaxInstrReached,
                 last': Option<Block>)
    requires p.WellFormed() && Tracks(p, t, mir, last)
    requires if p.IsInstruction(h.node) then
               var b := p.BlockOf(h.node);
               && Position(p, h.node).Some? && last' == Some(b)
               && mir' == if Reached(mir, b) < Position(p, h.node).value then mir[b := Position(p, h.node).value]
                          else mir
             else mir' == mir && last' == last
    ensures Tracks(p, t + [h], mir', last')
  {
    var t' := t + [h];
    assert Before(t') == t && End(t') == h.node;
    forall b ensures Reached(mir', b) == HighestIndex(p, t', b) {
      assert Reached(mir, b) == HighestIndex(p, t, b);
    }
  }

  lemma ReferrersExist(p: Program, n: Node)
    requires p.WellFormed() && n in p.nodes
    ensures p.nodes[n].referrers.Some? ==> forall r <- p.nodes[n].referrers.value :: r in p.nodes
  {
    assert p.IsWellFormedNode(n);
  }

  lemma OperandsExist(p: Program, n: Node)
    requires p.WellFormed() && n in p.nodes
    ensures forall o <- p.nodes[n].operands :: o.Some? ==> o.value in p.nodes
  {
    assert p.IsWellFormedNode(n);
  }

  lemma SelectNodesExist(p: Program, n: Node, states: seq<SelectState>, k: nat)
    requires p.WellFormed() && n in p.nodes && p.nodes[n].kind == Select(states) && k < |states|
    ensures states[k].channel in p.nodes && (states[k].dir.SendOnly? ==> states[k].send.Some?)
  {
    assert p.IsWellFormedNode(n);
    assert states[k] in states;
    assert Some(states[k].channel) in p.nodes[n].operands;
  }

  lemma SelectIsHop(p: Program, n: Node, states: seq<SelectState>, k: nat, h: Hop, tainted: set<Node>)
    requires n in p.nodes && p.nodes[n].kind == Select(states) && k < |states|
    requires IsSelectHop(p, n, states, k, h, tainted)
    ensures IsHop(p, n, h, tainted)
  {
  }

  lemma GateIsOpenIff(c: CallInfo, bits: set<nat>, tainted: set<Node>)
    requires c.summary.Some?
    requires bits == set j | 0 <= j < |Program.Arguments(c)| && j < 64 && Program.Arguments(c)[j] in tainted
    ensures IsGateOpen(c, tainted) <==> bits * c.summary.value.ifTainted != {}
  {
    if bits * c.summary.value.ifTainted != {} {
      var j :| j in bits * c.summary.value.ifTainted;
    }
    if IsGateOpen(c, tainted) {
      var j :| 0 <= j < |Program.Arguments(c)| && j < 64
        && Program.Arguments(c)[j] in tainted && j in c.summary.value.ifTainted;
      assert j in bits * c.summary.value.ifTainted;
    }
  }

  lemma ArgumentsDone(p: Program, s: Search, n: Node, c: CallInfo, t: Trail)
    requires p.WellFormed() && n in p.nodes && p.IsWellFormedNode(n) && IsSummaryCall(p.nodes[n].kind, c)
    requires c.summary.Some? && forall h | IsTaintedArgument(c, h) :: IsFollowed(p, s, t, h)
    ensures forall x | IsListedArgument(c, x) :: x in Tainted(s) || IsRefused(p, t, x, false)
  {
    forall x | IsListedArgument(c, x) ensures x in Tainted(s) || IsRefused(p, t, x, false) {
      ListedArgumentExists(p, n, c, x);
      ArgumentIff(p, c, x);
      BlockedIff(p, t, x, false);
      assert IsFollowed(p, s, t, Hop(x, false));
    }
  }

  lemma ArgumentIsHop(p: Program, n: Node, c: CallInfo, i: nat, tainted: set<Node>)
    requires p.WellFormed() && n in p.nodes && IsGateOpen(c, tainted) && i in c.summary.value.taintedArgs
    requires (p.nodes[n].kind == Call(c) && !c.sanitizer && c.builtin.None?) || p.nodes[n].kind == Go(c)
    ensures i < |Program.Arguments(c)| && Program.Arguments(c)[i] in p.nodes
    ensures IsHop(p, n, Hop(Program.Arguments(c)[i], false), tainted)
  {
    assert p.IsWellFormedNode(n);
    assert Some(Program.Arguments(c)[i]) in p.nodes[n].operands;
  }

  lemma ResultIsHop(p: Program, n: Node, c: CallInfo, i: nat, tainted: set<Node>)
    requires p.WellFormed() && n in p.nodes && IsGateOpen(c, tainted) && i < |c.summary.value.taintedRets|
    requires p.nodes[n].kind == Call(c) && !c.sanitizer && c.builtin.None? && p.nodes[n].referrers.Some?
    requires c.results != 1
    ensures i in c.extractOf && c.extractOf[i] in p.nodes
    ensures IsHop(p, n, Hop(c.extractOf[i], true), tainted)
  {
    assert p.IsWellFormedNode(n);
  }

  lemma RecordSanitizer(p: Program, root: Node, s: Search, n: Node, t: Trail, taintedThen: set<Node>)
    requires p.WellFormed() && IsValid(p, root, s) && IsSanitizerCall(p, n) && t != [] && t in s.trails && End(t) == n
    ensures var s' := s.(sanitizers := s.sanitizers + [n]);
      IsValid(p, root, s') && Continues(p, s, s') && IsHandled(p, s', t, taintedThen) && Tainted(s') == Tainted(s)
  {
    var s' := s.(sanitizers := s.sanitizers + [n]);
    var i :| 0 <= i < |s.trails| && s.trails[i] == t;
    assert HasTrail(p, root, s, i);
    assert s.preOrder[i] in Tainted(s);
    forall i | 0 <= i < |s'.trails| ensures HasTrail(p, root, s', i) {
      assert HasTrail(p, root, s, i);
    }
  }

  // ---- canReach ----

  /** The loop of canReach. */
  method SearchBlocks(p: Program, start: Block, dest: Block) returns (reaches: bool)
    requires p.WellFormed() && start in p.blocks
    ensures reaches <==> Reach(Flow(p), start, dest)
  {
    hide Reach, IsWalking, IsExpanding, Program.WellFormed;
    var stack, seen := [start], {start};
    StartWalk(p, start, dest);
    while stack != []
      invariant IsWalking(p, start, dest, stack, seen) && seen <= p.blocks.Keys
      decreases p.blocks.Keys - seen, |stack|
    {
      var current := stack[|stack| - 1];
      PopBlock(p, start, dest, stack, seen);
      stack := stack[..|stack| - 1];
      if current == dest {
        return true;
      }
      stack, seen := PushSuccessors(p, start, dest, stack, seen, current);
    }
    WalkedAll(p, start, dest, seen);
    return false;
  }

  /** The inner loop: puts the unseen successors of a block on the stack. */
  method PushSuccessors(p: Program, start: Block, dest: Block, stack0: seq<Block>, seen0: set<Block>, current: Block)
    returns (stack: seq<Block>, seen: set<Block>)
    requires p.WellFormed() && current in p.blocks && seen0 <= p.blocks.Keys
    requires IsExpanding(p, start, dest, stack0, seen0, current, 0)
    ensures IsWalking(p, start, dest, stack, seen) && seen0 <= seen <= p.blocks.Keys
    ensures seen == seen0 ==> stack == stack0
  {
    hide IsWalking, IsExpanding, Program.WellFormed;
    stack, seen := stack0, seen0;
    var succs := p.blocks[current].succs;
    for i := 0 to |succs|
      invariant seen0 <= seen <= p.blocks.Keys && (seen == seen0 ==> stack == stack0)
      invariant IsExpanding(p, start, dest, stack, seen, current, i)
    {
      LookAtBlock(p, start, dest, stack, seen, current, i);
      if succs[i] !in seen {
        seen := seen + {succs[i]};
        stack := stack + [succs[i]];
      }
    }
    DoneWithBlock(p, start, dest, stack, seen, current);
  }

  ghost predicate IsWalking(p: Program, start: Block, dest: Block, stack: seq<Block>, seen: set<Block>) {
    && start in seen && seen <= p.blocks.Keys && Elements(stack) <= seen
    && (forall b <- seen :: Reach(Flow(p), start, b))
    && (dest in seen ==> dest in stack)
    && forall b, s | b in seen && b !in stack && b in p.blocks && s in p.blocks[b].succs :: s in seen
  }

  ghost predicate IsExpanding(p: Program, start: Block, dest: Block, stack: seq<Block>, seen: set<Block>,
                              current: Block, i: nat)
  {
    && start in seen && seen <= p.blocks.Keys && Elements(stack) <= seen && current in seen && current != dest
    && (forall b <- seen :: Reach(Flow(p), start, b))
    && (dest in seen ==> dest in stack)
    && i <= |p.blocks[current].succs| && (forall j | 0 <= j < i :: p.blocks[current].succs[j] in seen)
    && forall b, s | b in seen && b !in stack && b != current && s in p.blocks[b].succs :: s in seen
  }

  lemma ShortcutIsSound(p: Program, dominates: (Block, Block) -> bool, start: Block, dest: Block)
    requires IsSetting(p, dominates) && dest in p.blocks
    ensures p.WellFormed() && (dominates(start, dest) ==> Reach(Flow(p), start, dest))
  {
    if dominates(start, dest) {
      DominanceImpliesReach(p, start, dest);
    }
  }

  lemma StartWalk(p: Program, start: Block, dest: Block)
    requires start in p.blocks
    ensures IsWalking(p, start, dest, [start], {start})
  {
    ReachSelf(Flow(p), start);
  }

  lemma PopBlock(p: Program, start: Block, dest: Block, stack: seq<Block>, seen: set<Block>)
    requires IsWalking(p, start, dest, stack, seen) && stack != []
    ensures var current, rest := stack[|stack| - 1], stack[..|stack| - 1];
      && current in p.blocks && seen <= p.blocks.Keys && Reach(Flow(p), start, current)
      && (current != dest ==> IsExpanding(p, start, dest, rest, seen, current, 0))
  {
    var current, rest := stack[|stack| - 1], stack[..|stack| - 1];
    assert stack == rest + [current];
    assert current in Elements(stack);
    assert forall x :: x in stack <==> x in rest || x == current;
  }

  lemma LookAtBlock(p: Program, start: Block, dest: Block, stack: seq<Block>, seen: set<Block>, current: Block, i: nat)
    requires p.WellFormed() && current in p.blocks && i < |p.blocks[current].succs|
    requires IsExpanding(p, start, dest, stack, seen, current, i)
    ensures var s := p.blocks[current].succs[i];
      && s in p.blocks
      && if s in seen then IsExpanding(p, start, dest, stack, seen, current, i + 1)
         else IsExpanding(p, start, dest, stack + [s], seen + {s}, current, i + 1)
  {
    var s := p.blocks[current].succs[i];
    assert s in p.blocks[current].succs;
    if s !in seen {
      ReachByEdge(Flow(p), start, current, s);
      assert forall x :: x in stack + [s] <==> x in stack || x == s;
    }
  }

  lemma DoneWithBlock(p: Program, start: Block, dest: Block, stack: seq<Block>, seen: set<Block>, current: Block)
    requires current in p.blocks && IsExpanding(p, start, dest, stack, seen, current, |p.blocks[current].succs|)
    ensures IsWalking(p, start, dest, stack, seen) && seen <= p.blocks.Keys
  {
  }

  lemma WalkedAll(p: Program, start: Block, dest: Block, seen: set<Block>)
    requires IsWalking(p, start, dest, [], seen)
    ensures !Reach(Flow(p), start, dest)
  {
    if Reach(Flow(p), start, dest) {
      assert IsClosed(Flow(p), seen);
      ClosedKeepsReach(Flow(p), seen, start, dest);
    }
  }

  lemma LastBlockExists(p: Program, t: Trail)
    requires p.WellFormed()
    ensures LastBlock(p, t).Some? ==> LastBlock(p, t).value in p.blocks
  {
    if t != [] {
      if !p.IsInstruction(End(t)) {
        LastBlockExists(p, Before(t));
      } else {
        assert p.IsWellFormedNode(End(t));
      }
    }
  }
}
