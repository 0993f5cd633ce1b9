/**
 * Symmetry breaking for chain contraction (src/main/java/contrail/avro/PairMarkAvro.java).
 *
 * Every node with a compressible strand flips a coin that any other node can
 * recompute from the node id and a global seed. An Up node merges into a
 * Down buddy, forward strand first. A Down node whose buddies are all Down
 * and whose id is smaller than all of theirs promotes itself to Up, so a run
 * of Down nodes still makes progress.
 */
module PairMark {
  import opened MapReduce

  datatype Strand = Forward | Reverse

  /** Which strands the compressibility stage marked (NONE, FORWARD, REVERSE, BOTH). */
  datatype CompressibleStrands = Neither | ForwardOnly | ReverseOnly | Both

  datatype EdgeTerminal = EdgeTerminal(nodeId: string, strand: Strand)

  datatype TailData = TailData(terminal: EdgeTerminal)

  /**
   * A graph node. `GraphNode.getTail(strand, OUTGOING)` is abstracted as the
   * two tail fields (None when the strand has no unique outgoing edge);
   * `payload` stands for the sequence, coverage and edge lists.
   */
  datatype GraphNode = GraphNode(
    nodeId: string,
    fTail: Option<TailData>,
    rTail: Option<TailData>,
    payload: string)

  datatype CompressibleNodeData = CompressibleNodeData(
    node: GraphNode,
    compressibleStrands: CompressibleStrands)

  datatype Coin = Up | Down

  /** The mapper's output value: the node and, for a merge, the strand to merge. */
  datatype MergeNodeData = MergeNodeData(node: GraphNode, strandToMerge: Option<Strand>)

  /** The edge a node chooses to compress: the other end and this node's strand. */
  datatype EdgeToCompress = EdgeToCompress(otherTerminal: EdgeTerminal, strand: Strand)

  function OutgoingTail(n: GraphNode, s: Strand): Option<TailData>
  {
    match s
    case Forward => n.fTail
    case Reverse => n.rTail
  }

  // ---------------------------------------------------------------------
  // Compressible strands and buddies
  // ---------------------------------------------------------------------

  /** The strands each annotation value stands for. */
  function StrandsOf(cs: CompressibleStrands): set<Strand>
  {
    match cs
    case Neither => {}
    case ForwardOnly => {Forward}
    case ReverseOnly => {Reverse}
    case Both => {Forward, Reverse}
  }

  /** `CompressibleNode.canCompress`. */
  predicate CanCompress(cs: CompressibleStrands, s: Strand)
    ensures CanCompress(cs, s) <==> s in StrandsOf(cs)
  {
    match cs
    case Both => assert s == Forward || s == Reverse; true
    case ForwardOnly => s == Forward
    case ReverseOnly => s == Reverse
    case Neither => false
  }

  /** `getBuddy`: the outgoing tail on a compressible strand, and nothing otherwise. */
  function GetBuddy(nd: CompressibleNodeData, s: Strand): (b: Option<TailData>)
    ensures b.Some? <==> s in StrandsOf(nd.compressibleStrands) && OutgoingTail(nd.node, s).Some?
    ensures b.Some? ==> b == OutgoingTail(nd.node, s)
  {
    if CanCompress(nd.compressibleStrands, s) then OutgoingTail(nd.node, s) else None
  }

  /** The ids of the buddies that exist. */
  function BuddyIds(fbuddy: Option<TailData>, rbuddy: Option<TailData>): set<string>
  {
    (if fbuddy.Some? then {fbuddy.value.terminal.nodeId} else {}) +
    (if rbuddy.Some? then {rbuddy.value.terminal.nodeId} else {})
  }

  // ---------------------------------------------------------------------
  // The coin
  // ---------------------------------------------------------------------

  /**
   * Java's `String.hashCode`: h = 31 * h + c over the characters, kept as
   * the unsigned value of its 32-bit pattern.
   */
  function HashCode(s: string): (h: nat)
    ensures h < 0x1_0000_0000
  {
    if s == [] then 0 else (HashCode(s[..|s| - 1]) * 31 + s[|s| - 1] as int) % 0x1_0000_0000
  }

  /**
   * `hashCode() ^ randseed`: the `int` hash is widened to a `long` with
   * sign extension before the exclusive or.
   */
  function Seed(h: nat, randseed: bv64): bv64
    requires h < 0x1_0000_0000
  {
    var widened := if h < 0x8000_0000 then h else h + 0xFFFF_FFFF_0000_0000;
    (widened as bv64) ^ randseed
  }

  /**
   * The coin source of one job: `randseed` from the configuration and
   * `draw`, the side `new Random(seed).nextDouble() >= .5` picks for each
   * seed (the generator's internals are not modelled).
   */
  datatype Coins = Coins(randseed: bv64, draw: bv64 -> Coin)

  /** `flip(nodeid)`: a function of the seed and the node id alone. */
  function Flip(coins: Coins, nodeId: string): Coin
  {
    coins.draw(Seed(HashCode(nodeId), coins.randseed))
  }

  /** Ids with the same hash code always land on the same side, whatever the seed. */
  lemma {:induction false} CollidingIdsFlipAlike(coins: Coins)
    ensures HashCode("Aa") == HashCode("BB")
    ensures Flip(coins, "Aa") == Flip(coins, "BB")
  {
    assert "Aa"[..1] == "A" && "BB"[..1] == "B";
    assert "A"[..0] == [] && "B"[..0] == [];
  }

  // ---------------------------------------------------------------------
  // String order (`String.compareTo(...) < 0`)
  // ---------------------------------------------------------------------

  /** Lexicographic order on characters; a proper prefix comes first. */
  predicate StrLess(a: string, b: string)
  {
    if a == [] then b != []
    else if b == [] then false
    else if a[0] != b[0] then a[0] < b[0]
    else StrLess(a[1..], b[1..])
  }

  lemma {:induction false} StrLessAsymmetric(a: string, b: string)
    ensures !(StrLess(a, b) && StrLess(b, a))
  {
    if a != [] && b != [] && a[0] == b[0] {
      StrLessAsymmetric(a[1..], b[1..]);
    }
  }

  lemma {:induction false} StrLessTotal(a: string, b: string)
    requires a != b
    ensures StrLess(a, b) || StrLess(b, a)
  {
    if a != [] && b != [] && a[0] == b[0] {
      assert a == [a[0]] + a[1..] && b == [b[0]] + b[1..];
      StrLessTotal(a[1..], b[1..]);
    }
  }

  // ---------------------------------------------------------------------
  // Mapper decisions
  // ---------------------------------------------------------------------

  /**
   * `processUpNode`: merge along the forward buddy if it flips Down, else
   * along the reverse buddy if that one flips Down, else nowhere.
   */
  function ProcessUpNode(coins: Coins, fbuddy: Option<TailData>, rbuddy: Option<TailData>): (e: Option<EdgeToCompress>)
    ensures e.Some? <==>
      (fbuddy.Some? && Flip(coins, fbuddy.value.terminal.nodeId) == Down) ||
      (rbuddy.Some? && Flip(coins, rbuddy.value.terminal.nodeId) == Down)
    ensures e.Some? && e.value.strand == Forward ==>
      fbuddy.Some? && e.value.otherTerminal == fbuddy.value.terminal
    ensures e.Some? && e.value.strand == Reverse ==>
      rbuddy.Some? && e.value.otherTerminal == rbuddy.value.terminal &&
      !(fbuddy.Some? && Flip(coins, fbuddy.value.terminal.nodeId) == Down)
    ensures e.Some? ==> Flip(coins, e.value.otherTerminal.nodeId) == Down
  {
    if fbuddy.Some? && Flip(coins, fbuddy.value.terminal.nodeId) == Down then
      Some(EdgeToCompress(fbuddy.value.terminal, Forward))
    else if rbuddy.Some? && Flip(coins, rbuddy.value.terminal.nodeId) == Down then
      Some(EdgeToCompress(rbuddy.value.terminal, Reverse))
    else
      None
  }

  /**
   * `convertDownToUp`: a Down node becomes Up when every buddy it has flips
   * Down and its own id is smaller than each buddy's. The source dereferences
   * the forward buddy when neither exists, so at least one must.
   */
  predicate ConvertDownToUp(coins: Coins, id: string, fbuddy: Option<TailData>, rbuddy: Option<TailData>)
    requires fbuddy.Some? || rbuddy.Some?
    ensures ConvertDownToUp(coins, id, fbuddy, rbuddy) <==>
      forall b :: b in BuddyIds(fbuddy, rbuddy) ==> Flip(coins, b) == Down && StrLess(id, b)
  {
    if rbuddy.Some? && fbuddy.Some? then
      Flip(coins, fbuddy.value.terminal.nodeId) == Down &&
      Flip(coins, rbuddy.value.terminal.nodeId) == Down &&
      StrLess(id, fbuddy.value.terminal.nodeId) &&
      StrLess(id, rbuddy.value.terminal.nodeId)
    else if rbuddy.None? then
      Flip(coins, fbuddy.value.terminal.nodeId) == Down && StrLess(id, fbuddy.value.terminal.nodeId)
    else
      Flip(coins, rbuddy.value.terminal.nodeId) == Down && StrLess(id, rbuddy.value.terminal.nodeId)
  }

  /** What the mapper decides for one node. */
  datatype Decision = Keep | MergeInto(edge: EdgeToCompress)

  /**
   * The decision logic of `PairMarkMapper.map`: a node with no buddy, a node
   * that stays Down, and an Up node without a Down buddy are kept; an Up
   * node (raw or promoted) merges along the edge `processUpNode` picks.
   */
  function Decide(coins: Coins, nd: CompressibleNodeData): (d: Decision)
    ensures var fb, rb := GetBuddy(nd, Forward), GetBuddy(nd, Reverse);
      (fb.None? && rb.None? ==> d == Keep) &&
      (d.MergeInto? ==>
        d.edge.otherTerminal.nodeId in BuddyIds(fb, rb) &&
        Flip(coins, d.edge.otherTerminal.nodeId) == Down &&
        (Flip(coins, nd.node.nodeId) == Up || ConvertDownToUp(coins, nd.node.nodeId, fb, rb))) &&
      (d == Keep && (fb.Some? || rb.Some?) ==>
        (Flip(coins, nd.node.nodeId) == Down && !ConvertDownToUp(coins, nd.node.nodeId, fb, rb)) ||
        ProcessUpNode(coins, fb, rb).None?)
    ensures var fb, rb := GetBuddy(nd, Forward), GetBuddy(nd, Reverse);
      d.MergeInto? <==>
        (fb.Some? || rb.Some?) &&
        (Flip(coins, nd.node.nodeId) == Up || ConvertDownToUp(coins, nd.node.nodeId, fb, rb)) &&
        ProcessUpNode(coins, fb, rb).Some?
    ensures d.MergeInto? ==> ProcessUpNode(coins, GetBuddy(nd, Forward), GetBuddy(nd, Reverse)) == Some(d.edge)
  {
    var fbuddy := GetBuddy(nd, Forward);
    var rbuddy := GetBuddy(nd, Reverse);
    if fbuddy.None? && rbuddy.None? then Keep
    else
      var coin := Flip(coins, nd.node.nodeId);
      var coin' := if coin == Down && ConvertDownToUp(coins, nd.node.nodeId, fbuddy, rbuddy) then Up else coin;
      if coin' == Down then Keep
      else
        match ProcessUpNode(coins, fbuddy, rbuddy)
        case None => Keep
        case Some(e) => MergeInto(e)
  }

  /**
   * `PairMarkMapper.map` as written: a kept node is collected under its own
   * id, but the merge branch fills `out_pair` and never collects it.
   */
  function MapAsWritten(coins: Coins, nd: CompressibleNodeData): (out: seq<(string, MergeNodeData)>)
    ensures |out| <= 1
    ensures out == [] <==> Decide(coins, nd).MergeInto?
    ensures out != [] ==> out == [(nd.node.nodeId, MergeNodeData(nd.node, None))]
  {
    match Decide(coins, nd)
    case Keep => [(nd.node.nodeId, MergeNodeData(nd.node, None))]
    case MergeInto(_) => []
  }

  /**
   * `PairMarkMapper.map` with the merge branch collected: every node yields
   * exactly one record, either under its own id with no strand to merge, or
   * under the id of a Down buddy with the strand it merges along.
   */
  function Map(coins: Coins, nd: CompressibleNodeData): (out: seq<(string, MergeNodeData)>)
    ensures |out| == 1 && out[0].1.node == nd.node
    ensures out[0].1.strandToMerge.None? ==> out[0].0 == nd.node.nodeId
    ensures out[0].1.strandToMerge.Some? ==>
      out[0].0 in BuddyIds(GetBuddy(nd, Forward), GetBuddy(nd, Reverse)) &&
      Flip(coins, out[0].0) == Down
    ensures out[0].1.strandToMerge.Some? <==> Decide(coins, nd).MergeInto?
    ensures Decide(coins, nd).MergeInto? ==>
      out[0] == (Decide(coins, nd).edge.otherTerminal.nodeId, MergeNodeData(nd.node, Some(Decide(coins, nd).edge.strand)))
  {
    match Decide(coins, nd)
    case Keep => [(nd.node.nodeId, MergeNodeData(nd.node, None))]
    case MergeInto(e) => [(e.otherTerminal.nodeId, MergeNodeData(nd.node, Some(e.strand)))]
  }

  /**
   * The as-written mapper loses a node: a node "a" whose forward strand is
   * compressible towards "b", with a coin that gives "a" Up and "b" Down,
   * is dropped, where the corrected mapper sends it to "b".
   */
  lemma {:induction false} MapAsWrittenDropsMergingNode()
    ensures var coins := Coins(0, (x: bv64) => if x == 98 then Down else Up);
      var nd := CompressibleNodeData(GraphNode("a", Some(TailData(EdgeTerminal("b", Forward))), None, ""), ForwardOnly);
      MapAsWritten(coins, nd) == [] &&
      Map(coins, nd) == [("b", MergeNodeData(nd.node, Some(Forward)))]
  {
    var coins := Coins(0, (x: bv64) => if x == 98 then Down else Up);
    assert "a"[..0] == [] && "b"[..0] == [];
    assert HashCode("a") == 97 && HashCode("b") == 98;
    assert Flip(coins, "a") == Up && Flip(coins, "b") == Down;
  }

  /** A node with no buddy is passed through unchanged whatever the coins say. */
  lemma {:induction false} NoBuddyIgnoresCoins(c1: Coins, c2: Coins, nd: CompressibleNodeData)
    requires GetBuddy(nd, Forward).None? && GetBuddy(nd, Reverse).None?
    ensures Map(c1, nd) == Map(c2, nd) == [(nd.node.nodeId, MergeNodeData(nd.node, None))]
  {
  }

  /** The strand and target of a merging node. */
  function Target(coins: Coins, nd: CompressibleNodeData): string
    requires Decide(coins, nd).MergeInto?
  {
    Decide(coins, nd).edge.otherTerminal.nodeId
  }

  /**
   * Symmetry breaking: two nodes never merge into each other in the same
   * round. Each target flips Down, so both would have to be promoted, and
   * promotion needs each id to be smaller than the other.
   */
  lemma {:induction false} NoMutualMerge(coins: Coins, a: CompressibleNodeData, b: CompressibleNodeData)
    ensures Decide(coins, a).MergeInto? && Decide(coins, b).MergeInto? ==>
      !(Target(coins, a) == b.node.nodeId && Target(coins, b) == a.node.nodeId)
  {
    if Decide(coins, a).MergeInto? && Decide(coins, b).MergeInto? &&
       Target(coins, a) == b.node.nodeId && Target(coins, b) == a.node.nodeId {
      var fa, ra := GetBuddy(a, Forward), GetBuddy(a, Reverse);
      var fb, rb := GetBuddy(b, Forward), GetBuddy(b, Reverse);
      assert Flip(coins, b.node.nodeId) == Down && Flip(coins, a.node.nodeId) == Down;
      assert StrLess(a.node.nodeId, b.node.nodeId) by {
        assert ConvertDownToUp(coins, a.node.nodeId, fa, ra);
        assert b.node.nodeId in BuddyIds(fa, ra);
      }
      assert StrLess(b.node.nodeId, a.node.nodeId) by {
        assert ConvertDownToUp(coins, b.node.nodeId, fb, rb);
        assert a.node.nodeId in BuddyIds(fb, rb);
      }
      StrLessAsymmetric(a.node.nodeId, b.node.nodeId);
    }
  }

  /**
   * Two Down nodes that are each other's only buddy do not stall: exactly
   * one of them, the one with the smaller id, is promoted and merges into
   * the other.
   */
  lemma {:induction false} DownPairMakesProgress(coins: Coins, a: CompressibleNodeData, b: CompressibleNodeData)
    requires a.node.nodeId != b.node.nodeId
    requires BuddyIds(GetBuddy(a, Forward), GetBuddy(a, Reverse)) == {b.node.nodeId}
    requires BuddyIds(GetBuddy(b, Forward), GetBuddy(b, Reverse)) == {a.node.nodeId}
    requires Flip(coins, a.node.nodeId) == Down && Flip(coins, b.node.nodeId) == Down
    ensures Decide(coins, a).MergeInto? <==> StrLess(a.node.nodeId, b.node.nodeId)
    ensures Decide(coins, b).MergeInto? <==> StrLess(b.node.nodeId, a.node.nodeId)
    ensures Decide(coins, a).MergeInto? != Decide(coins, b).MergeInto?
  {
    StrLessTotal(a.node.nodeId, b.node.nodeId);
    StrLessAsymmetric(a.node.nodeId, b.node.nodeId);
    DownNodeDecision(coins, a, b.node.nodeId);
    DownNodeDecision(coins, b, a.node.nodeId);
  }

  /** A Down node whose only buddy is a Down node `other` merges exactly when its id is smaller. */
  lemma {:induction false} DownNodeDecision(coins: Coins, a: CompressibleNodeData, other: string)
    requires BuddyIds(GetBuddy(a, Forward), GetBuddy(a, Reverse)) == {other}
    requires Flip(coins, a.node.nodeId) == Down && Flip(coins, other) == Down
    ensures Decide(coins, a).MergeInto? <==> StrLess(a.node.nodeId, other)
  {
    var fb, rb := GetBuddy(a, Forward), GetBuddy(a, Reverse);
    assert fb.Some? || rb.Some?;
    assert fb.Some? ==> fb.value.terminal.nodeId == other;
    assert rb.Some? ==> rb.value.terminal.nodeId == other;
    assert ConvertDownToUp(coins, a.node.nodeId, fb, rb) <==> StrLess(a.node.nodeId, other);
    assert ProcessUpNode(coins, fb, rb).Some?;
  }

  // ---------------------------------------------------------------------
  // Reducer
  // ---------------------------------------------------------------------

  /** A link rewrite: replace the edge to (oid, odir) by one to (nid, ndir). */
  datatype Update = Update(oid: string, odir: string, nid: string, ndir: string)

  datatype MarkMsg =
    | NodeMsg(node: GraphNode)
    | UpdateMsg(update: Update)
    | Unrecognised(text: string)

  /** A node record: `vals[0]` is the node message tag. */
  predicate IsNodeMsg(m: MarkMsg) { m.NodeMsg? }

  /** A message whose tag the reducer does not know. */
  predicate IsUnrecognised(m: MarkMsg) { m.Unrecognised? }

  datatype ReduceError =
    | UnknownMsgType(msg: MarkMsg)
    | NodeCountNotOne(nodeId: string, sawNode: nat)

  /** The `updates` list: every update message's payload, in arrival order. */
  function Updates(ms: seq<MarkMsg>): (us: seq<Update>)
    ensures |us| <= |ms|
    ensures forall u :: u in us <==> UpdateMsg(u) in ms
  {
    if ms == [] then []
    else
      var last := ms[|ms| - 1];
      assert ms == ms[..|ms| - 1] + [last];
      Updates(ms[..|ms| - 1]) + (if last.UpdateMsg? then [last.update] else [])
  }

  lemma {:induction false} UpdatesAppend(a: seq<MarkMsg>, b: seq<MarkMsg>)
    ensures Updates(a + b) == Updates(a) + Updates(b)
    decreases |b|
  {
    if b == [] {
      assert a + b == a;
    } else {
      var init := b[..|b| - 1];
      assert (a + b)[..|a + b| - 1] == a + init;
      UpdatesAppend(a, init);
    }
  }

  /** `replacelink` applied for each update in turn, oldest first. */
  function ApplyUpdates(replaceLink: (GraphNode, Update) -> GraphNode, n: GraphNode, us: seq<Update>): GraphNode
  {
    if us == [] then n else replaceLink(ApplyUpdates(replaceLink, n, us[..|us| - 1]), us[|us| - 1])
  }

  /** Applying a batch of updates is applying its first part, then the rest. */
  lemma {:induction false} ApplyUpdatesAppend(replaceLink: (GraphNode, Update) -> GraphNode, n: GraphNode, a: seq<Update>, b: seq<Update>)
    ensures ApplyUpdates(replaceLink, n, a + b) == ApplyUpdates(replaceLink, ApplyUpdates(replaceLink, n, a), b)
    decreases |b|
  {
    if b == [] {
      assert a + b == a;
    } else {
      var init := b[..|b| - 1];
      assert (a + b)[..|a + b| - 1] == a + init;
      ApplyUpdatesAppend(replaceLink, n, a, init);
    }
  }

  /**
   * What `PairMarkReducer.reduce` produces for one key: an error for an
   * unknown message or for a node-record count other than one; otherwise
   * the node with every update applied in arrival order, under the key.
   */
  function ReduceOutput(replaceLink: (GraphNode, Update) -> GraphNode, nodeId: string, ms: seq<MarkMsg>): (r: Result<(string, GraphNode), ReduceError>)
    ensures r.Err? <==> (exists m :: m in ms && m.Unrecognised?) || CountWhere(ms, IsNodeMsg) != 1
    ensures r.Err? && r.error.NodeCountNotOne? ==> forall m :: m in ms ==> !m.Unrecognised?
    ensures r.Ok? ==>
      r.value.0 == nodeId &&
      exists n :: NodeMsg(n) in ms && r.value.1 == ApplyUpdates(replaceLink, n, Updates(ms))
  {
    FirstWhereFound(ms, IsUnrecognised);
    LastWhereFound(ms, IsNodeMsg);
    match FirstWhere(ms, IsUnrecognised)
    case Some(m) => Err(UnknownMsgType(m))
    case None =>
      if CountWhere(ms, IsNodeMsg) != 1 then Err(NodeCountNotOne(nodeId, CountWhere(ms, IsNodeMsg)))
      else Ok((nodeId, ApplyUpdates(replaceLink, LastWhere(ms, IsNodeMsg).value.node, Updates(ms))))
  }

  /**
   * `PairMarkReducer.reduce`: collects the updates and counts the node
   * records, checks the count, then applies the updates to the node.
   */
  method Reduce(replaceLink: (GraphNode, Update) -> GraphNode, nodeId: string, msgs: seq<MarkMsg>)
    returns (r: Result<(string, GraphNode), ReduceError>)
    ensures r == ReduceOutput(replaceLink, nodeId, msgs)
  {
    var node := GraphNode(nodeId, None, None, "");
    var updates: seq<Update> := [];
    var sawNode := 0;
    var i := 0;
    while i < |msgs|
      invariant 0 <= i <= |msgs|
      invariant FirstWhere(msgs[..i], IsUnrecognised).None?
      invariant updates == Updates(msgs[..i])
      invariant sawNode == CountWhere(msgs[..i], IsNodeMsg)
      invariant sawNode > 0 ==> LastWhere(msgs[..i], IsNodeMsg) == Some(NodeMsg(node))
      decreases |msgs| - i
    {
      assert msgs[..i + 1][..i] == msgs[..i];
      ScanStep(msgs, IsNodeMsg, i);
      ScanStep(msgs, IsUnrecognised, i);
      match msgs[i] {
        case NodeMsg(n) =>
          node := n;
          sawNode := sawNode + 1;
        case UpdateMsg(up) =>
          updates := updates + [up];
        case Unrecognised(_) =>
          FirstWhereExtends(msgs, IsUnrecognised, i + 1);
          return Err(UnknownMsgType(msgs[i]));
      }
      i := i + 1;
    }
    assert msgs[..i] == msgs;
    if sawNode != 1 {
      return Err(NodeCountNotOne(nodeId, sawNode));
    }
    ghost var parsed := node;
    if |updates| > 0 {
      for j := 0 to |updates|
        invariant node == ApplyUpdates(replaceLink, parsed, updates[..j])
      {
        assert updates[..j + 1][..j] == updates[..j];
        node := replaceLink(node, updates[j]);
      }
      assert updates[..|updates|] == updates;
    }
    r := Ok((nodeId, node));
  }
}
