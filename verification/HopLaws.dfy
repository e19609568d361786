/** Where taint goes from a node, said of the kinds of nodes, their operand and referrer lists and the fields of calls
    (taintNeighbors in internal/pkg/propagation/propagation.go, taintStdlibCall in stdlib.go). */
module HopLaws {
  import opened References
  import opened Graphs
  import opened Ssa
  import opened TaintSearch
  import opened FlowLaws

  // ---- what the search did at a node ----

  ghost predicate IsEntry(p: Program, root: Node, s: Search, i: nat) {
    && p.WellFormed() && IsValid(p, root, s)
    && i < |s.preOrder| == |s.trails| && s.preOrder[i] in p.nodes
  }

  ghost predicate IsFinishedEntry(p: Program, root: Node, s: Search, i: nat) {
    IsEntry(p, root, s, i) && IsFinished(p, s)
  }

  /** From its i-th node the search went on to n, unless flow refused it. */
  ghost predicate WentOnTo(p: Program, s: Search, i: nat, n: Node, asReferrer: bool)
    requires i < |s.trails|
  {
    n in s.preOrder || IsRefused(p, s.trails[i], n, asReferrer)
  }

  /** What was tainted when the i-th node was visited. */
  ghost function TaintedThen(s: Search, i: nat): set<Node>
    requires i < |s.preOrder|
  {
    set k | 0 <= k <= i :: s.preOrder[k]
  }

  lemma HopsAreFollowed(p: Program, root: Node, s: Search, i: nat, h: Hop)
    requires IsFinishedEntry(p, root, s, i)
    requires h.node in p.nodes && IsHop(p, s.preOrder[i], h, TaintedThen(s, i))
    ensures WentOnTo(p, s, i, h.node, h.asReferrer)
  {
    assert HasTrail(p, root, s, i) && IsHandledAt(p, s, i);
    assert TaintedThen(s, i) == Elements(s.preOrder[..i + 1]);
    assert IsFollowed(p, s, s.trails[i], h);
    BlockedIff(p, s.trails[i], h.node, h.asReferrer);
  }

  lemma EntryExists(p: Program, root: Node, s: Search, i: nat)
    requires p.WellFormed() && IsValid(p, root, s) && i < |s.preOrder|
    ensures IsEntry(p, root, s, i) && p.IsWellFormedNode(s.preOrder[i])
    ensures s.trails[i] != [] && End(s.trails[i]) == s.preOrder[i]
  {
    assert s.preOrder[i] in Tainted(s);
    assert HasTrail(p, root, s, i);
  }

  // ---- nodes other than calls and selects ----

  /** Kinds whose referrers are visited whenever their type is taintable. */
  predicate PassesToReferrers(kind: Kind) {
    match kind
    case Builtin | DebugRef | Defer | Function | If | Jump | MakeClosure | Next | Panic | Return | RunDefers => false
    case Unexpected => false
    case Store(_) | MapUpdate(_) | Send(_) => false
    case Call(_) | Go(_) | Select(_) => false
    case Alloc(isArray) => isArray
    case Field(isSource) => isSource
    case FieldAddr(isSource) => isSource
    case _ => true
  }

  /** The operands that are visited. */
  ghost predicate PassesToOperand(info: NodeInfo, x: Node) {
    match info.kind
    case Store(addr) => x == addr
    case MapUpdate(m) => x == m
    case Send(channel) => x == channel
    case Index(indexed) => x == indexed
    case IndexAddr(indexed) => x == indexed
    case Slice(sliced) => x == sliced
    case MakeInterface | TypeAssert | UnOp => Some(x) in info.operands
    case Field(isSource) => isSource && Some(x) in info.operands
    case FieldAddr(isSource) => isSource && Some(x) in info.operands
    case _ => false
  }

  /** Every referrer of a tainted node is tainted or refused, unless the node has one of the kinds listed above. */
  lemma ReferrersAreVisited(p: Program, root: Node, s: Search, i: nat, r: Node)
    requires IsFinishedEntry(p, root, s, i)
    requires var info := p.nodes[s.preOrder[i]];
      PassesToReferrers(info.kind) && info.taintableType && info.referrers.Some? && r in info.referrers.value
    ensures WentOnTo(p, s, i, r, true)
  {
    EntryExists(p, root, s, i);
    HopsAreFollowed(p, root, s, i, Hop(r, true));
  }

  lemma OperandsAreVisited(p: Program, root: Node, s: Search, i: nat, x: Node)
    requires IsFinishedEntry(p, root, s, i)
    requires PassesToOperand(p.nodes[s.preOrder[i]], x)
    ensures WentOnTo(p, s, i, x, false)
  {
    EntryExists(p, root, s, i);
    HopsAreFollowed(p, root, s, i, Hop(x, false));
  }

  /** Conversely, only so were nodes tainted: as the root, as a referrer of a root of taintable type, or from an
      earlier node, as one of its referrers or operands that its kind visits. */
  lemma NothingElseIsVisited(p: Program, root: Node, s: Search, i: nat)
    requires IsEntry(p, root, s, i)
    ensures s.preOrder[i] == root || IsVisitedReferrer(p, root, s.preOrder[i])
            || exists j | 0 <= j < i :: ComesFrom(p, s, s.preOrder[j], s.preOrder[i])
  {
    EntryExists(p, root, s, i);
    assert HasTrail(p, root, s, i);
    var t := s.trails[i];
    assert IsGoodHop(p, root, t, |t| - 1, Tainted(s));
    if Before(t) != [] {
      var j :| 0 <= j < i && s.trails[j] == Before(t);
      EntryExists(p, root, s, j);
      HopComesFrom(p, s, s.preOrder[j], t[|t| - 1]);
    }
  }

  ghost predicate IsVisitedReferrer(p: Program, m: Node, n: Node) {
    && m in p.nodes && p.nodes[m].taintableType
    && p.nodes[m].referrers.Some? && n in p.nodes[m].referrers.value
  }

  /** The search may have come to n from m. */
  ghost predicate ComesFrom(p: Program, s: Search, m: Node, n: Node) {
    m in p.nodes && match p.nodes[m].kind
                    case Call(c) => ComesFromCall(p, Tainted(s), m, c, n)
                    case Go(c) => GateOpens(c, Tainted(s)) && IsListedArgument(c, n)
                    case Select(states) => ComesFromSelect(p, Tainted(s), m, states, n)
                    case kind =>
                      (PassesToReferrers(kind) && IsVisitedReferrer(p, m, n)) || PassesToOperand(p.nodes[m], n)
  }

  lemma HopComesFrom(p: Program, s: Search, m: Node, h: Hop)
    requires p.WellFormed() && m in p.nodes && p.IsWellFormedNode(m) && IsHop(p, m, h, Tainted(s))
    ensures ComesFrom(p, s, m, h.node)
  {
    match p.nodes[m].kind {
      case Call(c) => CallHopComesFrom(p, Tainted(s), m, c, h);
      case Go(c) => GateIff(c, Tainted(s));
        ArgumentIff(p, c, h.node);
      case Select(states) => SelectHopComesFrom(p, Tainted(s), m, states, h);
      case _ =>
    }
  }

  // ---- calls ----

  /** Some argument that the summary lists as a source of taint is tainted. A receiver has position 0 and moves the
      arguments up by one; positions from 64 on do not count. */
  ghost predicate GateOpens(c: CallInfo, tainted: set<Node>) {
    c.summary.Some? &&
    match c.receiver
    case Some(r) =>
      || (r in tainted && 0 in c.summary.value.ifTainted)
      || (exists i | 0 <= i < |c.args| && i < 63 :: c.args[i] in tainted && i + 1 in c.summary.value.ifTainted)
    case None =>
      exists i | 0 <= i < |c.args| && i < 64 :: c.args[i] in tainted && i in c.summary.value.ifTainted
  }

  /** The summary says that the call taints n. */
  ghost predicate IsListedArgument(c: CallInfo, n: Node) {
    c.summary.Some? && exists j <- c.summary.value.taintedArgs :: IsArgumentAt(c, j, n)
  }

  predicate IsArgumentAt(c: CallInfo, j: nat, n: Node) {
    match c.receiver
    case Some(r) => if j == 0 then r == n else j <= |c.args| && c.args[j - 1] == n
    case None => j < |c.args| && c.args[j] == n
  }

  ghost predicate ComesFromCall(p: Program, tainted: set<Node>, m: Node, c: CallInfo, n: Node) {
    !c.sanitizer &&
    match c.builtin
    case Some(Append) => IsVisitedReferrer(p, m, n) || IsFirst(c, n)
    case Some(Copy) => IsFirst(c, n)
    case Some(OtherBuiltin) => false
    case None => GateOpens(c, tainted) && (IsListedArgument(c, n) || IsListedResult(p, m, c, n))
  }

  /** The first argument, if a call may taint values of its type. */
  ghost predicate IsFirst(c: CallInfo, n: Node) {
    |c.args| > 0 && |c.taintable| > 0 && c.taintable[0] && c.args[0] == n
  }

  /** The call itself is its one result; otherwise its results are the Extracts for positions of the list. */
  ghost predicate IsListedResult(p: Program, m: Node, c: CallInfo, n: Node) {
    && c.summary.Some? && m in p.nodes && p.nodes[m].referrers.Some?
    && if c.results == 1 then c.summary.value.taintedRets != [] && IsVisitedReferrer(p, m, n)
       else exists k | 0 <= k < |c.summary.value.taintedRets| :: k in c.extractOf && c.extractOf[k] == n
  }

  lemma GateIff(c: CallInfo, tainted: set<Node>)
    ensures IsGateOpen(c, tainted) <==> GateOpens(c, tainted)
  {
    if c.summary.Some? && c.receiver.Some? {
      var args, listed := Program.Arguments(c), c.summary.value.ifTainted;
      assert args[0] == c.receiver.value && forall i | 0 <= i < |c.args| :: args[i + 1] == c.args[i];
      if i :| 0 <= i < |args| && i < 64 && args[i] in tainted && i in listed {
        assert i > 0 ==> c.args[i - 1] in tainted;
      }
      if i :| 0 <= i < |c.args| && i < 63 && c.args[i] in tainted && i + 1 in listed {
        assert args[i + 1] in tainted;
      }
    }
  }

  lemma ArgumentIff(p: Program, c: CallInfo, n: Node)
    requires c.summary.Some?
    ensures IsTaintedArgument(c, Hop(n, false)) <==> IsListedArgument(c, n)
  {
    var args := Program.Arguments(c);
    forall j <- c.summary.value.taintedArgs ensures j < |args| && args[j] == n <==> IsArgumentAt(c, j, n) {
    }
  }

  lemma CallHopComesFrom(p: Program, tainted: set<Node>, m: Node, c: CallInfo, h: Hop)
    requires m in p.nodes && p.nodes[m].kind == Call(c) && IsHop(p, m, h, tainted)
    ensures ComesFromCall(p, tainted, m, c, h.node)
  {
    if c.builtin.None? {
      GateIff(c, tainted);
      ArgumentIff(p, c, h.node);
    }
  }

  /** append and copy visit their first argument, append its referrers too. */
  lemma BuiltinsAreFollowed(p: Program, root: Node, s: Search, i: nat, c: CallInfo, n: Node)
    requires IsFinishedEntry(p, root, s, i)
    requires p.nodes[s.preOrder[i]].kind == Call(c) && !c.sanitizer
    requires c.builtin == Some(Append) || c.builtin == Some(Copy)
    ensures IsFirst(c, n) ==> WentOnTo(p, s, i, n, false)
    ensures c.builtin == Some(Append) && IsVisitedReferrer(p, s.preOrder[i], n) ==> WentOnTo(p, s, i, n, true)
  {
    EntryExists(p, root, s, i);
    if IsFirst(c, n) {
      assert c.args[0] in Program.Arguments(c);
      HopsAreFollowed(p, root, s, i, Hop(n, false));
    }
    if c.builtin == Some(Append) && IsVisitedReferrer(p, s.preOrder[i], n) {
      HopsAreFollowed(p, root, s, i, Hop(n, true));
    }
  }

  ghost predicate IsSummaryCall(kind: Kind, c: CallInfo) {
    (kind == Call(c) && !c.sanitizer && c.builtin.None?) || kind == Go(c)
  }

  /** A call with a summary whose gate is open visits the arguments and, unless it is a go statement, the results that
      the summary lists. */
  lemma SummariesAreFollowed(p: Program, root: Node, s: Search, i: nat, c: CallInfo, n: Node)
    requires IsFinishedEntry(p, root, s, i)
    requires IsSummaryCall(p.nodes[s.preOrder[i]].kind, c) && GateOpens(c, TaintedThen(s, i))
    ensures IsListedArgument(c, n) ==> WentOnTo(p, s, i, n, false)
    ensures p.nodes[s.preOrder[i]].kind.Call? && IsListedResult(p, s.preOrder[i], c, n) ==> WentOnTo(p, s, i, n, true)
  {
    EntryExists(p, root, s, i);
    GateIff(c, TaintedThen(s, i));
    ArgumentIff(p, c, n);
    if IsListedArgument(c, n) {
      ListedArgumentExists(p, s.preOrder[i], c, n);
      HopsAreFollowed(p, root, s, i, Hop(n, false));
    }
    if p.nodes[s.preOrder[i]].kind.Call? && IsListedResult(p, s.preOrder[i], c, n) {
      HopsAreFollowed(p, root, s, i, Hop(n, true));
    }
  }

  lemma ListedArgumentExists(p: Program, m: Node, c: CallInfo, n: Node)
    requires p.WellFormed() && m in p.nodes && p.IsWellFormedNode(m) && IsSummaryCall(p.nodes[m].kind, c)
    requires IsListedArgument(c, n)
    ensures n in p.nodes
  {
    ArgumentIff(p, c, n);
    assert n in Program.Arguments(c);
    assert Some(n) in p.nodes[m].operands;
  }

  // ---- selects ----

  /** The tuple of a select starts with two elements of its own; then comes one for each receive state. */
  lemma {:induction false} ExtractIndexCounts(states: seq<SelectState>, k: nat)
    requires k <= |states|
    ensures ExtractIndex(states, k) == 2 + |ReceivesBefore(states, k)|
  {
    if k > 0 {
      ExtractIndexCounts(states, k - 1);
      var before := ReceivesBefore(states, k - 1);
      assert ReceivesBefore(states, k) == if states[k - 1].dir.RecvOnly? then before + {k - 1} else before;
    } else {
      assert ReceivesBefore(states, 0) == {};
    }
  }

  ghost function ReceivesBefore(states: seq<SelectState>, k: nat): set<nat>
    requires k <= |states|
  {
    set j: nat | j < k && states[j].dir.RecvOnly?
  }

  /** A tainted value that is sent taints the channel; what is received from a tainted channel is tainted. */
  ghost predicate ComesFromState(p: Program, tainted: set<Node>, m: Node, states: seq<SelectState>, k: nat, n: Node)
    requires k < |states|
  {
    match states[k].dir
    case SendOnly => states[k].send.Some? && states[k].send.value in tainted && n == states[k].channel
    case RecvOnly =>
      && states[k].channel in tainted && m in p.nodes && p.nodes[m].referrers.Some? && n in p.nodes[m].referrers.value
      && n in p.nodes && p.nodes[n].kind == Extract(2 + |ReceivesBefore(states, k)|)
  }

  ghost predicate ComesFromSelect(p: Program, tainted: set<Node>, m: Node, states: seq<SelectState>, n: Node) {
    exists k | 0 <= k < |states| :: ComesFromState(p, tainted, m, states, k, n)
  }

  lemma SelectHopComesFrom(p: Program, tainted: set<Node>, m: Node, states: seq<SelectState>, h: Hop)
    requires m in p.nodes && p.nodes[m].kind == Select(states) && IsHop(p, m, h, tainted)
    ensures ComesFromSelect(p, tainted, m, states, h.node)
  {
    var k :| 0 <= k < |states| && IsSelectHop(p, m, states, k, h, tainted);
    ExtractIndexCounts(states, k);
    assert ComesFromState(p, tainted, m, states, k, h.node);
  }

  lemma SelectsAreFollowed(p: Program, root: Node, s: Search, i: nat, states: seq<SelectState>, k: nat, n: Node)
    requires IsFinishedEntry(p, root, s, i)
    requires p.nodes[s.preOrder[i]].kind == Select(states) && k < |states|
    requires ComesFromState(p, TaintedThen(s, i), s.preOrder[i], states, k, n)
    ensures WentOnTo(p, s, i, n, false)
  {
    EntryExists(p, root, s, i);
    ExtractIndexCounts(states, k);
    assert IsSelectHop(p, s.preOrder[i], states, k, Hop(n, false), TaintedThen(s, i));
    assert states[k] in states;
    assert Some(states[k].channel) in p.nodes[s.preOrder[i]].operands;
    HopsAreFollowed(p, root, s, i, Hop(n, false));
  }
}
