/**
 * Compressibility detection (src/contrail/Compressible.java).
 *
 * The mapper makes every node claim to be the unique predecessor of the
 * node at its unique outgoing tail on each strand (self-loops excluded) and
 * re-emits the node with both compressibility flags cleared. The reducer,
 * grouped by node id, marks a strand compressible only when the node at
 * that strand's tail sent a claim back on the complementary strand tag: a
 * mutual-uniqueness check.
 */
module Compressible {
  import opened MapReduce

  /** The strands of a node, in the order `Node.dirs` lists them. */
  datatype Adj = F | R

  const Dirs: seq<Adj> := [F, R]

  /** The text tag of a strand inside a claim message. */
  function Tag(adj: Adj): (t: string)
    ensures t == "f" <==> adj == F
    ensures t == "r" <==> adj == R
  {
    match adj
    case F => "f"
    case R => "r"
  }

  /**
   * The unique outgoing tail of a node on one strand: the neighbour's id and
   * the strand tag ("f" or "r", as text) on which the edge enters it.
   */
  datatype TailInfo = TailInfo(id: string, dir: string)

  /**
   * A node record. `Node.gettail` is abstracted as the two tail fields (None
   * when the strand has no unique outgoing edge); `payload` stands for every
   * other field of the serialised node (sequence, coverage, edge lists).
   */
  datatype Node = Node(
    id: string,
    fTail: Option<TailInfo>,
    rTail: Option<TailInfo>,
    fCompress: bool,
    rCompress: bool,
    payload: string)

  function GetTail(n: Node, adj: Adj): Option<TailInfo>
  {
    match adj
    case F => n.fTail
    case R => n.rTail
  }

  predicate CanCompress(n: Node, adj: Adj)
  {
    match adj
    case F => n.fCompress
    case R => n.rCompress
  }

  /** The two records agree on everything but the compressibility flags. */
  predicate SameExceptFlags(a: Node, b: Node)
  {
    a.id == b.id && a.fTail == b.fTail && a.rTail == b.rTail && a.payload == b.payload
  }

  function SetCanCompress(n: Node, adj: Adj, b: bool): (m: Node)
    ensures SameExceptFlags(m, n)
    ensures CanCompress(m, adj) == b
    ensures forall other :: other != adj ==> CanCompress(m, other) == CanCompress(n, other)
  {
    match adj
    case F => n.(fCompress := b)
    case R => n.(rCompress := b)
  }

  /** Messages of the shuffle: a serialised node, a claim, or anything else. */
  datatype Msg =
    | NodeMsg(node: Node)
    | HasUniqueP(fromId: string, tag: string)
    | Unrecognised(text: string)

  /** A node record: `vals[0]` is the node message tag. */
  predicate IsNodeMsg(m: Msg) { m.NodeMsg? }

  /** A message whose tag the reducer does not know. */
  predicate IsUnrecognised(m: Msg) { m.Unrecognised? }

  datatype ReduceError =
    | UnknownMsgType(msg: Msg)
    | NodeCountNotOne(key: string, sawNode: nat)

  // ---------------------------------------------------------------------
  // Mapper
  // ---------------------------------------------------------------------

  /** Where the mapper sends a claim along `adj`: the tail id, unless it is a self-loop. */
  function ClaimTarget(n: Node, adj: Adj): Option<string>
  {
    match GetTail(n, adj)
    case None => None
    case Some(t) => if t.id == n.id then None else Some(t.id)
  }

  function ClaimOn(n: Node, adj: Adj): seq<(string, Msg)>
  {
    match ClaimTarget(n, adj)
    case None => []
    case Some(k) => [(k, HasUniqueP(n.id, Tag(adj)))]
  }

  function ClaimsOver(n: Node, ds: seq<Adj>): seq<(string, Msg)>
  {
    if ds == [] then [] else ClaimsOver(n, ds[..|ds| - 1]) + ClaimOn(n, ds[|ds| - 1])
  }

  function ClearedOver(n: Node, ds: seq<Adj>): Node
  {
    if ds == [] then n else SetCanCompress(ClearedOver(n, ds[..|ds| - 1]), ds[|ds| - 1], false)
  }

  function NumClaims(n: Node): nat
  {
    (if ClaimTarget(n, F).Some? then 1 else 0) + (if ClaimTarget(n, R).Some? then 1 else 0)
  }

  /**
   * Everything the mapper emits for one node: one claim per strand whose
   * tail is another node, keyed by that tail's id, then the node itself
   * with both flags cleared, keyed by its own id.
   */
  function MapOutput(n: Node): (out: seq<(string, Msg)>)
    ensures |out| == NumClaims(n) + 1
    ensures out[|out| - 1].0 == n.id
    ensures out[|out| - 1].1 == NodeMsg(n.(fCompress := false, rCompress := false))
    ensures forall j :: 0 <= j < |out| - 1 ==>
      out[j].1.HasUniqueP? && out[j].1.fromId == n.id && out[j].0 != n.id
  {
    ClaimOn(n, F) + ClaimOn(n, R) + [(n.id, NodeMsg(n.(fCompress := false, rCompress := false)))]
  }

  /** The mapper sends a claim on a strand's tag to key `k` exactly when that strand's tail is `k`. */
  lemma {:induction false} MapOutputClaims(n: Node, k: string, adj: Adj)
    ensures (k, HasUniqueP(n.id, Tag(adj))) in MapOutput(n) <==> ClaimTarget(n, adj) == Some(k)
  {
    var out := MapOutput(n);
    if (k, HasUniqueP(n.id, Tag(adj))) in out {
      var j :| 0 <= j < |out| && out[j] == (k, HasUniqueP(n.id, Tag(adj)));
      assert j < |out| - 1;
      if ClaimTarget(n, F).Some? && j == 0 {
        assert out[j] == (ClaimTarget(n, F).value, HasUniqueP(n.id, "f"));
      } else {
        assert ClaimTarget(n, R).Some? && out[j] == (ClaimTarget(n, R).value, HasUniqueP(n.id, "r"));
      }
    }
    if ClaimTarget(n, adj) == Some(k) {
      assert (k, HasUniqueP(n.id, Tag(adj))) in ClaimOn(n, adj);
    }
  }

  /**
   * `CompressibleMapper.map`: walks `Node.dirs`, clearing each strand's flag
   * and emitting a claim for each non-self tail, then emits the node.
   */
  method Map(node: Node) returns (out: seq<(string, Msg)>)
    ensures out == MapOutput(node)
  {
    var n := node;
    out := [];
    for i := 0 to |Dirs|
      invariant n == ClearedOver(node, Dirs[..i])
      invariant out == ClaimsOver(node, Dirs[..i])
    {
      assert Dirs[..i + 1][..i] == Dirs[..i];
      var adj := Dirs[i];
      n := SetCanCompress(n, adj, false);
      var next := GetTail(n, adj);
      if next.Some? {
        if next.value.id == n.id {
          continue;
        }
        out := out + [(next.value.id, HasUniqueP(n.id, Tag(adj)))];
      }
    }
    assert Dirs[..|Dirs|] == Dirs;
    MapOverDirs(node);
    out := out + [(n.id, NodeMsg(n))];
  }

  /** Walking both strands clears both flags and emits the claims on F, then on R. */
  lemma {:induction false} MapOverDirs(node: Node)
    ensures ClearedOver(node, Dirs) == node.(fCompress := false, rCompress := false)
    ensures ClaimsOver(node, Dirs) + [(node.id, NodeMsg(ClearedOver(node, Dirs)))] == MapOutput(node)
  {
    assert Dirs[..1] == [F] && [F][..0] == [];
    assert ClearedOver(node, [F]) == node.(fCompress := false);
    assert ClearedOver(node, Dirs) == SetCanCompress(node.(fCompress := false), R, false);
    assert ClaimsOver(node, [F]) == [] + ClaimOn(node, F);
    assert ClaimsOver(node, Dirs) == ClaimOn(node, F) + ClaimOn(node, R);
  }

  // ---------------------------------------------------------------------
  // Reducer
  // ---------------------------------------------------------------------

  /** The ids that sent a claim with the given tag (the `f_unique` / `r_unique` sets). */
  function Claimants(ms: seq<Msg>, tag: string): set<string>
  {
    if ms == [] then {}
    else
      var last := ms[|ms| - 1];
      Claimants(ms[..|ms| - 1], tag) + (if last.HasUniqueP? && last.tag == tag then {last.fromId} else {})
  }

  /** A claim set holds exactly the senders of claims with its tag; claims with other tags are ignored. */
  lemma {:induction false} ClaimantsExact(ms: seq<Msg>, tag: string)
    ensures forall x :: x in Claimants(ms, tag) <==> HasUniqueP(x, tag) in ms
  {
    if ms != [] {
      var last := ms[|ms| - 1];
      ClaimantsExact(ms[..|ms| - 1], tag);
      assert ms == ms[..|ms| - 1] + [last];
    }
  }

  /** The reducer's test for one strand: the tail answered on the complementary tag. */
  predicate Reciprocated(n: Node, adj: Adj, fUnique: set<string>, rUnique: set<string>)
  {
    match GetTail(n, adj)
    case None => false
    case Some(t) => (t.dir == "f" && t.id in rUnique) || (t.dir == "r" && t.id in fUnique)
  }

  function MarkOver(n: Node, ds: seq<Adj>, fUnique: set<string>, rUnique: set<string>): Node
  {
    if ds == [] then n
    else
      var m := MarkOver(n, ds[..|ds| - 1], fUnique, rUnique);
      var adj := ds[|ds| - 1];
      if Reciprocated(m, adj, fUnique, rUnique) then SetCanCompress(m, adj, true) else m
  }

  /** Marking over some strands changes only the flags, and sets exactly the reciprocated ones. */
  lemma {:induction false} MarkOverFlags(n: Node, ds: seq<Adj>, fUnique: set<string>, rUnique: set<string>)
    ensures var m := MarkOver(n, ds, fUnique, rUnique);
      SameExceptFlags(m, n) &&
      forall adj :: CanCompress(m, adj) <==>
        CanCompress(n, adj) || (adj in ds && Reciprocated(n, adj, fUnique, rUnique))
  {
    if ds != [] {
      var init := ds[..|ds| - 1];
      MarkOverFlags(n, init, fUnique, rUnique);
      assert ds == init + [ds[|ds| - 1]];
    }
  }


  /** The tail on `adj` sent a claim back on the complementary strand tag. */
  predicate ClaimedBack(n: Node, adj: Adj, ms: seq<Msg>)
  {
    match GetTail(n, adj)
    case None => false
    case Some(t) => (t.dir == "f" && HasUniqueP(t.id, "r") in ms) || (t.dir == "r" && HasUniqueP(t.id, "f") in ms)
  }

  /**
   * What `CompressibleReducer.reduce` produces for one key: an error for an
   * unknown message or for a node-record count other than one; otherwise
   * the node, under the reduce key, with every strand whose tail claimed
   * back marked compressible and nothing else changed.
   */
  function ReduceOutput(key: string, ms: seq<Msg>): (r: Result<(string, Node), ReduceError>)
    ensures r.Err? <==> (exists m :: m in ms && m.Unrecognised?) || CountWhere(ms, IsNodeMsg) != 1
    ensures r.Err? && r.error.NodeCountNotOne? ==> forall m :: m in ms ==> !m.Unrecognised?
    ensures r.Ok? ==> r.value.0 == key
    ensures r.Ok? ==>
      exists n :: NodeMsg(n) in ms && SameExceptFlags(r.value.1, n) &&
        forall adj :: CanCompress(r.value.1, adj) <==> CanCompress(n, adj) || ClaimedBack(n, adj, ms)
  {
    FirstWhereFound(ms, IsUnrecognised);
    LastWhereFound(ms, IsNodeMsg);
    match FirstWhere(ms, IsUnrecognised)
    case Some(m) => Err(UnknownMsgType(m))
    case None =>
      if CountWhere(ms, IsNodeMsg) != 1 then Err(NodeCountNotOne(key, CountWhere(ms, IsNodeMsg)))
      else
        var n := LastWhere(ms, IsNodeMsg).value.node;
        var marked := MarkOver(n, Dirs, Claimants(ms, "f"), Claimants(ms, "r"));
        ClaimantsExact(ms, "f");
        ClaimantsExact(ms, "r");
        MarkOverFlags(n, Dirs, Claimants(ms, "f"), Claimants(ms, "r"));
        assert forall adj :: Reciprocated(n, adj, Claimants(ms, "f"), Claimants(ms, "r")) <==> ClaimedBack(n, adj, ms);
        Ok((key, marked))
  }

  /** What the message loop of `reduce` leaves behind: the node last parsed, the claim sets and `sawnode`. */
  datatype Received = Received(node: Node, fUnique: set<string>, rUnique: set<string>, sawNode: nat)

  /**
   * The message loop of `CompressibleReducer.reduce`: node records are
   * parsed and counted, claims are added to the set of their tag, and the
   * first message of unknown type stops the loop.
   */
  method ReadMessages(key: string, msgs: seq<Msg>) returns (r: Result<Received, Msg>)
    ensures r.Err? <==> FirstWhere(msgs, IsUnrecognised).Some?
    ensures r.Err? ==> FirstWhere(msgs, IsUnrecognised) == Some(r.error)
    ensures r.Ok? ==>
      r.value.fUnique == Claimants(msgs, "f") && r.value.rUnique == Claimants(msgs, "r") &&
      r.value.sawNode == CountWhere(msgs, IsNodeMsg) &&
      (r.value.sawNode > 0 ==> LastWhere(msgs, IsNodeMsg) == Some(NodeMsg(r.value.node)))
  {
    var node := Node(key, None, None, false, false, "");
    var fUnique: set<string> := {};
    var rUnique: set<string> := {};
    var sawNode := 0;
    var i := 0;
    while i < |msgs|
      invariant 0 <= i <= |msgs|
      decreases |msgs| - i
      invariant FirstWhere(msgs[..i], IsUnrecognised).None?
      invariant fUnique == Claimants(msgs[..i], "f")
      invariant rUnique == Claimants(msgs[..i], "r")
      invariant sawNode == CountWhere(msgs[..i], IsNodeMsg)
      invariant sawNode > 0 ==> LastWhere(msgs[..i], IsNodeMsg) == Some(NodeMsg(node))
    {
      assert msgs[..i + 1][..i] == msgs[..i];
      ScanStep(msgs, IsNodeMsg, i);
      ScanStep(msgs, IsUnrecognised, i);
      match msgs[i] {
        case NodeMsg(n) =>
          node := n;
          sawNode := sawNode + 1;
        case HasUniqueP(from, tag) =>
          if tag == "f" {
            fUnique := fUnique + {from};
          } else if tag == "r" {
            rUnique := rUnique + {from};
          }
        case Unrecognised(_) =>
          FirstWhereExtends(msgs, IsUnrecognised, i + 1);
          return Err(msgs[i]);
      }
      i := i + 1;
    }
    assert msgs[..i] == msgs;
    r := Ok(Received(node, fUnique, rUnique, sawNode));
  }

  /**
   * `CompressibleReducer.reduce`: the message loop, the integrity check,
   * then a pass over `Node.dirs` setting the flags.
   */
  method Reduce(key: string, msgs: seq<Msg>) returns (r: Result<(string, Node), ReduceError>)
    ensures r == ReduceOutput(key, msgs)
  {
    var received := ReadMessages(key, msgs);
    if received.Err? {
      return Err(UnknownMsgType(received.error));
    }
    var node, fUnique, rUnique, sawNode :=
      received.value.node, received.value.fUnique, received.value.rUnique, received.value.sawNode;
    if sawNode != 1 {
      return Err(NodeCountNotOne(key, sawNode));
    }
    for j := 0 to |Dirs|
      invariant node == MarkOver(LastWhere(msgs, IsNodeMsg).value.node, Dirs[..j], fUnique, rUnique)
    {
      assert Dirs[..j + 1][..j] == Dirs[..j];
      var adj := Dirs[j];
      var next := GetTail(node, adj);
      if next.Some? {
        if (next.value.dir == "f" && next.value.id in rUnique) || (next.value.dir == "r" && next.value.id in fUnique) {
          node := SetCanCompress(node, adj, true);
        }
      }
    }
    assert Dirs[..|Dirs|] == Dirs;
    r := Ok((key, node));
  }

  // ---------------------------------------------------------------------
  // One round of the stage: map every node, shuffle, reduce one key
  // ---------------------------------------------------------------------

  function MapAll(nodes: seq<Node>): seq<(string, Msg)>
  {
    FlatMap(MapOutput, nodes)
  }

  /**
   * The node `m` is the tail of `n` on `adj` and names `n` as its own
   * unique tail on the complementary strand, and it is not `n` itself.
   */
  predicate Reciprocates(m: Node, n: Node, adj: Adj)
  {
    match GetTail(n, adj)
    case None => false
    case Some(t) =>
      m.id == t.id && m.id != n.id &&
      ((t.dir == "f" && ClaimTarget(m, R) == Some(n.id)) ||
       (t.dir == "r" && ClaimTarget(m, F) == Some(n.id)))
  }

  /** What reaches the reducer for key `k`: its node records are the cleared nodes with id `k`. */
  lemma {:induction false} GroupedNodeRecords(nodes: seq<Node>, k: string, n: Node)
    requires NodeMsg(n) in Group(k, MapAll(nodes))
    ensures n.id == k && !n.fCompress && !n.rCompress
  {
    assert (k, NodeMsg(n)) in MapAll(nodes);
    var i :| 0 <= i < |nodes| && (k, NodeMsg(n)) in MapOutput(nodes[i]);
  }

  /** A claim reaches key `k` exactly when some node's unique tail on that strand is `k`. */
  lemma {:induction false} GroupedClaims(nodes: seq<Node>, k: string, from: string, adj: Adj)
    ensures HasUniqueP(from, Tag(adj)) in Group(k, MapAll(nodes)) <==>
      exists m :: m in nodes && m.id == from && ClaimTarget(m, adj) == Some(k)
  {
    var g := Group(k, MapAll(nodes));
    var claim := (k, HasUniqueP(from, Tag(adj)));
    if HasUniqueP(from, Tag(adj)) in g {
      assert claim in MapAll(nodes);
      var i :| 0 <= i < |nodes| && claim in MapOutput(nodes[i]);
      var out := MapOutput(nodes[i]);
      var j :| 0 <= j < |out| && out[j] == claim;
      assert j < |out| - 1;
      assert out[j].1.fromId == nodes[i].id;
      MapOutputClaims(nodes[i], k, adj);
      assert nodes[i] in nodes;
    }
    if exists m :: m in nodes && m.id == from && ClaimTarget(m, adj) == Some(k) {
      var m :| m in nodes && m.id == from && ClaimTarget(m, adj) == Some(k);
      var i :| 0 <= i < |nodes| && nodes[i] == m;
      MapOutputClaims(m, k, adj);
      assert claim in MapOutput(nodes[i]);
      assert claim in MapAll(nodes);
    }
  }

  /** One strand of the mutual-uniqueness argument, for the node record that reached key `k`. */
  lemma {:induction false} StrandIffMutual(nodes: seq<Node>, k: string, n: Node, out: Node, adj: Adj)
    requires NodeMsg(n) in Group(k, MapAll(nodes))
    requires SameExceptFlags(out, n)
    requires CanCompress(out, adj) <==> CanCompress(n, adj) || ClaimedBack(n, adj, Group(k, MapAll(nodes)))
    ensures CanCompress(out, adj) <==> exists m :: m in nodes && Reciprocates(m, out, adj)
  {
    GroupedNodeRecords(nodes, k, n);
    match GetTail(n, adj)
    case None =>
    case Some(t) =>
      GroupedClaims(nodes, k, t.id, R);
      GroupedClaims(nodes, k, t.id, F);
      if exists m :: m in nodes && Reciprocates(m, out, adj) {
        var m :| m in nodes && Reciprocates(m, out, adj);
        if t.dir == "f" {
          assert ClaimTarget(m, R) == Some(k);
        } else {
          assert ClaimTarget(m, F) == Some(k);
        }
      }
      if ClaimedBack(n, adj, Group(k, MapAll(nodes))) {
        if t.dir == "f" {
          var m :| m in nodes && m.id == t.id && ClaimTarget(m, R) == Some(k);
          assert Reciprocates(m, out, adj);
        } else {
          var m :| m in nodes && m.id == t.id && ClaimTarget(m, F) == Some(k);
          assert Reciprocates(m, out, adj);
        }
      }
  }

  /**
   * Mutual uniqueness across the whole stage: after the shuffle, the reducer
   * for key `k` marks a strand compressible exactly when the node at that
   * strand's tail exists, is a different node, and has `k` as its own unique
   * tail on the complementary strand.
   */
  lemma {:induction false} CompressibleIffMutual(nodes: seq<Node>, k: string)
    ensures var r := ReduceOutput(k, Group(k, MapAll(nodes)));
      r.Ok? ==> r.value.0 == k && forall adj :: CanCompress(r.value.1, adj) <==>
        exists m :: m in nodes && Reciprocates(m, r.value.1, adj)
  {
    var g := Group(k, MapAll(nodes));
    var r := ReduceOutput(k, g);
    if r.Ok? {
      var n := ReducedFrom(k, g);
      NodeIffMutual(nodes, k, n, r.value.1);
    }
  }

  /** The node record a successful reduction started from. */
  lemma {:induction false} ReducedFrom(k: string, ms: seq<Msg>) returns (n: Node)
    requires ReduceOutput(k, ms).Ok?
    ensures NodeMsg(n) in ms && SameExceptFlags(ReduceOutput(k, ms).value.1, n)
    ensures ReduceOutput(k, ms).value.0 == k
    ensures forall adj :: CanCompress(ReduceOutput(k, ms).value.1, adj) <==> CanCompress(n, adj) || ClaimedBack(n, adj, ms)
  {
    var out := ReduceOutput(k, ms).value.1;
    n :| NodeMsg(n) in ms && SameExceptFlags(out, n) &&
      forall adj :: CanCompress(out, adj) <==> CanCompress(n, adj) || ClaimedBack(n, adj, ms);
  }

  /** Every strand at once, for the node record that reached key `k`. */
  lemma {:induction false} NodeIffMutual(nodes: seq<Node>, k: string, n: Node, out: Node)
    requires NodeMsg(n) in Group(k, MapAll(nodes))
    requires SameExceptFlags(out, n)
    requires forall adj :: CanCompress(out, adj) <==> CanCompress(n, adj) || ClaimedBack(n, adj, Group(k, MapAll(nodes)))
    ensures n.id == k
    ensures forall adj :: CanCompress(out, adj) <==> exists m :: m in nodes && Reciprocates(m, out, adj)
  {
    GroupedNodeRecords(nodes, k, n);
    forall adj
      ensures CanCompress(out, adj) <==> exists m :: m in nodes && Reciprocates(m, out, adj)
    {
      StrandIffMutual(nodes, k, n, out, adj);
    }
  }

  /**
   * Self-loops are never compressible: no node ever claims itself, so a
   * strand whose tail is the node's own id is left unmarked.
   */
  lemma {:induction false} SelfTailNeverCompressible(nodes: seq<Node>, k: string, adj: Adj)
    ensures var r := ReduceOutput(k, Group(k, MapAll(nodes)));
      r.Ok? && GetTail(r.value.1, adj).Some? && GetTail(r.value.1, adj).value.id == r.value.1.id ==>
        !CanCompress(r.value.1, adj)
  {
    CompressibleIffMutual(nodes, k);
  }
}
