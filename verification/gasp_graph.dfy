/** Temporary GASP graphs and the order their transactions are submitted in (pkg/core/engine/gasp-storage.go). */
module GaspGraph {
  import opened Bytes
  import opened Wrappers
  import GaspWire

  type Outpoint = GaspWire.Outpoint

  datatype GraphNode = GraphNode(txid: Hash, rawTx: seq<byte>, proof: seq<byte>)

  type Nodes = map<Outpoint, GraphNode>

  /** Foreign code: the inputs of a raw transaction, its id, and whether a proof parses. */
  datatype Sdk = Sdk(inputs: seq<byte> -> Option<seq<Outpoint>>, txid: seq<byte> -> Hash, proofParses: seq<byte> -> bool)

  datatype GraphError = MissingGraphID | GraphFull | InvalidTransaction | InvalidProof | MissingInput
                      | RootNotFound | RequiredInputNotFound | DependencyCycle

  /** A transaction with its proof, or with the transactions it spends from. */
  datatype Hydrated = Hydrated(node: GraphNode, sources: seq<Hydrated>)

  // Growing a graph

  /** A node lies at an outpoint of its own transaction, which parses. */
  ghost predicate NodesValid(sdk: Sdk, nodes: Nodes) {
    forall p :: p in nodes ==>
      nodes[p].txid == p.txid == sdk.txid(nodes[p].rawTx) && sdk.inputs(nodes[p].rawTx).Some?
  }

  /** The graph of one traversal. */
  class GraphContext {
    const sdk: Sdk
    const maxNodes: Option<nat>
    var nodes: Nodes
    var count: nat

    ghost predicate Valid()
      reads this
    {
      && count == |nodes|
      && NodesValid(sdk, nodes)
      && (maxNodes.Some? ==> |nodes| <= maxNodes.value)
    }

    /** A node lies at its transaction's output, the new one unless there was one; all others are as they were. */
    ghost predicate Added(before: Nodes, rawTx: seq<byte>, proof: seq<byte>, outputIndex: nat)
      requires outputIndex < TwoTo32
      reads this
    {
      var p := GaspWire.Outpoint(sdk.txid(rawTx), outputIndex);
      && p in nodes && (p !in before ==> nodes[p] == GraphNode(sdk.txid(rawTx), rawTx, proof))
      && (forall q :: q in before ==> q in nodes && nodes[q] == before[q])
      && (forall q :: q in nodes && q != p ==> q in before)
    }

    constructor (sdk: Sdk, maxNodes: Option<nat>)
      ensures Valid() && nodes == map[] && this.sdk == sdk && this.maxNodes == maxNodes
    {
      this.sdk := sdk;
      this.maxNodes := maxNodes;
      nodes := map[];
      count := 0;
    }

    /**
     * Fails by the first check that does not hold. A node that is there already is kept, and a spender that is neither
     * in the graph nor the new node itself is an error that leaves the new node in the graph.
     */
    method AppendToGraph(rawTx: seq<byte>, proof: seq<byte>, outputIndex: nat, spentBy: Option<Outpoint>)
      returns (r: Result<(), GraphError>)
      requires Valid() && outputIndex < TwoTo32
      modifies this
      ensures Valid()
      ensures r == AppendResult(sdk, maxNodes, old(nodes), rawTx, proof, outputIndex, spentBy)
      ensures nodes ==
        if r.Failure? && r.error != MissingInput then old(nodes) else WithNode(sdk, old(nodes), rawTx, proof, outputIndex)
      ensures r == Failure(GraphFull) <==> maxNodes.Some? && maxNodes.value <= |old(nodes)|
      ensures r == Failure(InvalidTransaction) ==> sdk.inputs(rawTx).None?
      ensures r == Failure(InvalidProof) ==> sdk.inputs(rawTx).Some? && proof != [] && !sdk.proofParses(proof)
      ensures r.Failure? ==> r.error in {GraphFull, InvalidTransaction, InvalidProof, MissingInput}
      ensures r.Success? || r == Failure(MissingInput) ==>
        sdk.inputs(rawTx).Some? && (proof == [] || sdk.proofParses(proof)) && Added(old(nodes), rawTx, proof, outputIndex)
      ensures r == Failure(MissingInput) ==> spentBy.Some? && spentBy.value !in nodes
      ensures r.Success? && spentBy.Some? ==> spentBy.value in nodes
    {
      if maxNodes.Some? && count >= maxNodes.value {
        return Failure(GraphFull);
      }
      if sdk.inputs(rawTx).None? {
        return Failure(InvalidTransaction);
      }
      if |proof| > 0 && !sdk.proofParses(proof) {
        return Failure(InvalidProof);
      }
      var p := GaspWire.Outpoint(sdk.txid(rawTx), outputIndex);
      if p !in nodes {
        nodes := nodes[p := GraphNode(p.txid, rawTx, proof)];
        count := count + 1;
      }
      if spentBy.Some? && spentBy.value !in nodes {
        return Failure(MissingInput);
      }
      return Success(());
    }
  }

  /** The graph with a node at the outpoint of its transaction; the first node there stays. */
  function WithNode(sdk: Sdk, nodes: Nodes, rawTx: seq<byte>, proof: seq<byte>, outputIndex: nat): Nodes
    requires outputIndex < TwoTo32
  {
    var p := GaspWire.Outpoint(sdk.txid(rawTx), outputIndex);
    if p in nodes then nodes else nodes[p := GraphNode(p.txid, rawTx, proof)]
  }

  /** When a call succeeds, and the error of the first check that fails, over what is there before the call. */
  function AppendResult(sdk: Sdk, maxNodes: Option<nat>, nodes: Nodes, rawTx: seq<byte>, proof: seq<byte>, outputIndex: nat,
                        spentBy: Option<Outpoint>): Result<(), GraphError>
    requires outputIndex < TwoTo32
  {
    if maxNodes.Some? && |nodes| >= maxNodes.value then Failure(GraphFull)
    else if sdk.inputs(rawTx).None? then Failure(InvalidTransaction)
    else if proof != [] && !sdk.proofParses(proof) then Failure(InvalidProof)
    else if spentBy.Some? && spentBy.value !in nodes && spentBy.value != GaspWire.Outpoint(sdk.txid(rawTx), outputIndex)
    then Failure(MissingInput)
    else Success(())
  }

  // Dependencies

  type Deps = map<Hash, set<Hash>>

  function Txids(nodes: Nodes): set<Hash> {
    set p | p in nodes :: nodes[p].txid
  }

  /** Nodes of one transaction hold the same bytes: otherwise two preimages of one txid are at hand. */
  ghost predicate OneTransactionPerTxid(nodes: Nodes) {
    forall p, q :: p in nodes && q in nodes && nodes[p].txid == nodes[q].txid ==> nodes[p].rawTx == nodes[q].rawTx
  }

  /** A graph whose nodes of one txid differ exhibits a collision of the transaction hash. */
  lemma DifferentBytesCollide(sdk: Sdk, nodes: Nodes)
    requires NodesValid(sdk, nodes) && !OneTransactionPerTxid(nodes)
    ensures exists p, q :: p in nodes && q in nodes && Collision(sdk.txid, nodes[p].rawTx, nodes[q].rawTx)
  {
    var p, q :| p in nodes && q in nodes && nodes[p].txid == nodes[q].txid && nodes[p].rawTx != nodes[q].rawTx;
    assert Collision(sdk.txid, nodes[p].rawTx, nodes[q].rawTx);
  }

  ghost predicate NoSelfSpending(sdk: Sdk, nodes: Nodes) {
    forall p, i :: p in nodes && sdk.inputs(nodes[p].rawTx).Some? && 0 <= i < |sdk.inputs(nodes[p].rawTx).value| ==>
      sdk.inputs(nodes[p].rawTx).value[i].txid != nodes[p].txid
  }

  /** The transactions of the graph that a transaction spends from, itself left out. */
  ghost predicate IsDep(sdk: Sdk, nodes: Nodes, txid: Hash, dep: Hash) {
    && dep != txid && dep in Txids(nodes)
    && exists p, i :: p in nodes && nodes[p].txid == txid && Spends(sdk, nodes[p], i, dep)
  }

  predicate Spends(sdk: Sdk, node: GraphNode, i: nat, dep: Hash) {
    && sdk.inputs(node.rawTx).Some? && i < |sdk.inputs(node.rawTx).value|
    && sdk.inputs(node.rawTx).value[i].txid == dep
  }

  ghost predicate DepsOf(sdk: Sdk, nodes: Nodes, deps: Deps) {
    && deps.Keys == Txids(nodes)
    && forall txid, dep :: txid in deps ==> (dep in deps[txid] <==> IsDep(sdk, nodes, txid, dep))
  }

  // Orders and cycles

  /** Each transaction comes once, after all it depends on. */
  ghost predicate Ordered(deps: Deps, order: seq<Hash>) {
    && (forall i, j :: 0 <= i < j < |order| ==> order[i] != order[j])
    && (forall i :: 0 <= i < |order| ==> order[i] in deps && DepsBefore(deps[order[i]], order[..i]))
  }

  ghost predicate DepsBefore(deps: set<Hash>, order: seq<Hash>) {
    forall dep :: dep in deps ==> dep in order
  }

  /** Every element depends on the next. */
  ghost predicate Path(deps: Deps, path: seq<Hash>) {
    && path != []
    && (forall i :: 0 <= i < |path| ==> path[i] in deps)
    && (forall i :: 0 < i < |path| ==> path[i] in deps[path[i - 1]])
  }

  ghost predicate IsCycle(deps: Deps, path: seq<Hash>) {
    Path(deps, path) && |path| >= 2 && path[0] == path[|path| - 1]
  }

  ghost predicate HasCycle(deps: Deps) {
    exists path :: IsCycle(deps, path)
  }

  /** Along a path through an order, positions fall. */
  lemma {:induction false} PositionsFall(deps: Deps, order: seq<Hash>, path: seq<Hash>, k: nat)
    requires Ordered(deps, order) && Path(deps, path)
    requires k < |order| && order[k] == path[0]
    ensures exists m :: 0 <= m <= k && order[m] == path[|path| - 1] && (|path| > 1 ==> m < k)
    decreases |path|
  {
    if |path| > 1 {
      assert path[1] in deps[path[0]];
      assert path[1] in order[..k];
      var m :| 0 <= m < k && order[m] == path[1];
      PathTail(deps, path, 1);
      PositionsFall(deps, order, path[1..], m);
    }
  }

  /** What is fully ordered has no cycle. */
  lemma OrderedHasNoCycle(deps: Deps, order: seq<Hash>)
    requires Ordered(deps, order) && forall txid :: txid in deps ==> txid in order
    ensures !HasCycle(deps)
  {
    if path :| IsCycle(deps, path) {
      var k :| 0 <= k < |order| && order[k] == path[0];
      PositionsFall(deps, order, path, k);
    }
  }

  ghost predicate Waits(deps: Deps, stuck: set<Hash>, txid: Hash) {
    txid in deps && exists dep :: dep in deps[txid] && dep in stuck
  }

  ghost predicate Distinct(path: seq<Hash>) {
    forall i, j :: 0 <= i < j < |path| ==> path[i] != path[j]
  }

  ghost predicate Within(path: seq<Hash>, stuck: set<Hash>) {
    forall i :: 0 <= i < |path| ==> path[i] in stuck
  }

  /** Among finitely many transactions that all wait for one another, some path returns to itself. */
  lemma {:induction false} StuckHasCycle(deps: Deps, stuck: set<Hash>, path: seq<Hash>)
    requires forall txid :: txid in stuck ==> Waits(deps, stuck, txid)
    requires Path(deps, path) && Within(path, stuck) && Distinct(path)
    ensures HasCycle(deps)
    decreases |stuck| - |path|
  {
    hide Path, Distinct, Within, HasCycle;
    var dep := NextOnPath(deps, stuck, path);
    var longer := path + [dep];
    PathExtends(deps, path, dep);
    if dep in path {
      PathReturns(deps, path, dep);
    } else {
      GrowsWithin(path, dep, stuck);
      DistinctFit(longer, stuck);
      StuckHasCycle(deps, stuck, longer);
    }
  }

  lemma NextOnPath(deps: Deps, stuck: set<Hash>, path: seq<Hash>) returns (dep: Hash)
    requires forall txid :: txid in stuck ==> Waits(deps, stuck, txid)
    requires Path(deps, path) && Within(path, stuck)
    ensures dep in stuck && dep in deps && path != [] && path[|path| - 1] in deps && dep in deps[path[|path| - 1]]
  {
    var last := path[|path| - 1];
    assert Waits(deps, stuck, last);
    dep :| dep in deps[last] && dep in stuck;
    assert Waits(deps, stuck, dep);
  }

  lemma GrowsWithin(path: seq<Hash>, dep: Hash, stuck: set<Hash>)
    requires Within(path, stuck) && Distinct(path) && dep in stuck && dep !in path
    ensures Within(path + [dep], stuck) && Distinct(path + [dep])
  {
  }

  lemma PathReturns(deps: Deps, path: seq<Hash>, dep: Hash)
    requires dep in path && Path(deps, path + [dep])
    ensures HasCycle(deps)
  {
    hide Path;
    var k :| 0 <= k < |path| && path[k] == dep;
    PathTail(deps, path + [dep], k);
    assert IsCycle(deps, (path + [dep])[k..]);
  }

  lemma PathExtends(deps: Deps, path: seq<Hash>, dep: Hash)
    requires Path(deps, path) && dep in deps && dep in deps[path[|path| - 1]]
    ensures Path(deps, path + [dep])
  {
  }

  lemma PathTail(deps: Deps, path: seq<Hash>, k: nat)
    requires Path(deps, path) && k < |path|
    ensures Path(deps, path[k..])
  {
    forall i | 0 < i < |path[k..]|
      ensures path[k..][i] in deps[path[k..][i - 1]]
    {
      assert path[k + i] in deps[path[(k + i) - 1]];
    }
  }

  lemma {:induction false} DistinctFit(s: seq<Hash>, t: set<Hash>)
    requires Within(s, t) && Distinct(s)
    ensures |s| <= |t|
  {
    if s != [] {
      var last := s[|s| - 1];
      DistinctFit(s[..|s| - 1], t - {last});
    }
  }

  // Hydration

  /** The tree of a node: a proven node ends it, any other has a hydrated source at every input. */
  ghost predicate Hydrates(sdk: Sdk, nodes: Nodes, node: GraphNode, tree: Hydrated)
    decreases tree
  {
    && tree.node == node && sdk.inputs(node.rawTx).Some?
    && if |node.proof| > 0 then sdk.proofParses(node.proof) && tree.sources == []
       else
         var inputs := sdk.inputs(node.rawTx).value;
         |tree.sources| == |inputs| &&
         forall i :: 0 <= i < |inputs| ==> inputs[i] in nodes && Hydrates(sdk, nodes, nodes[inputs[i]], tree.sources[i])
  }

  /** All that a node of the graph spends from in the graph is among the transactions emitted so far. */
  ghost predicate Ready(sdk: Sdk, nodes: Nodes, node: GraphNode, order: seq<Hash>) {
    forall i, dep :: Spends(sdk, node, i, dep) && dep in Txids(nodes) ==> dep in order
  }

  /** Everything the recursion of the hydrator relies on. */
  ghost predicate GraphOrdered(sdk: Sdk, nodes: Nodes, deps: Deps, order: seq<Hash>) {
    && NodesValid(sdk, nodes) && OneTransactionPerTxid(nodes) && NoSelfSpending(sdk, nodes)
    && DepsOf(sdk, nodes, deps) && Ordered(deps, order)
  }

  lemma EmittedIsReady(sdk: Sdk, nodes: Nodes, deps: Deps, order: seq<Hash>, p: Outpoint, k: nat)
    requires GraphOrdered(sdk, nodes, deps, order) && p in nodes && k < |order| && order[k] == nodes[p].txid
    ensures Ready(sdk, nodes, nodes[p], order[..k]) && GraphOrdered(sdk, nodes, deps, order[..k])
  {
    hide DepsOf;
    forall i, dep | Spends(sdk, nodes[p], i, dep) && dep in Txids(nodes)
      ensures dep in order[..k]
    {
      DepIsThere(sdk, nodes, deps, p, i, dep);
    }
    forall i | 0 <= i < k
      ensures DepsBefore(deps[order[..k][i]], order[..k][..i])
    {
      assert order[..k][..i] == order[..i];
    }
  }

  lemma DepIsThere(sdk: Sdk, nodes: Nodes, deps: Deps, p: Outpoint, i: nat, dep: Hash)
    requires NoSelfSpending(sdk, nodes) && DepsOf(sdk, nodes, deps)
    requires p in nodes && Spends(sdk, nodes[p], i, dep) && dep in Txids(nodes)
    ensures nodes[p].txid in deps && dep in deps[nodes[p].txid]
  {
    assert nodes[p].txid in Txids(nodes);
    assert IsDep(sdk, nodes, nodes[p].txid, dep);
  }

  /** A transaction that waits for nothing has all it spends from in the order. */
  lemma WaitingForNothingIsReady(sdk: Sdk, nodes: Nodes, deps: Deps, order: seq<Hash>, p: Outpoint)
    requires NoSelfSpending(sdk, nodes) && DepsOf(sdk, nodes, deps) && p in nodes && nodes[p].txid in deps
    requires DepsBefore(deps[nodes[p].txid], order)
    ensures Ready(sdk, nodes, nodes[p], order)
  {
    hide DepsOf, NoSelfSpending;
    forall i, dep | Spends(sdk, nodes[p], i, dep) && dep in Txids(nodes)
      ensures dep in order
    {
      DepIsThere(sdk, nodes, deps, p, i, dep);
    }
  }

  /** Follows inputs through the graph; the position in the order of emission bounds the recursion. */
  method Hydrator(sdk: Sdk, nodes: Nodes, node: GraphNode, ghost deps: Deps, ghost order: seq<Hash>)
    returns (r: Result<Hydrated, GraphError>)
    requires GraphOrdered(sdk, nodes, deps, order) && Ready(sdk, nodes, node, order)
    ensures r.Success? ==> Hydrates(sdk, nodes, node, r.value)
    ensures r.Failure? ==> forall tree :: !Hydrates(sdk, nodes, node, tree)
    ensures r.Failure? ==> r.error in {InvalidTransaction, InvalidProof, RequiredInputNotFound}
    ensures sdk.inputs(node.rawTx).None? ==> r == Failure(InvalidTransaction)
    ensures sdk.inputs(node.rawTx).Some? && node.proof != [] ==>
      r == if sdk.proofParses(node.proof) then Success(Hydrated(node, [])) else Failure(InvalidProof)
    decreases |order|
  {
    hide GraphOrdered, Ready;
    var inputs := sdk.inputs(node.rawTx);
    if inputs.None? {
      return Failure(InvalidTransaction);
    }
    if |node.proof| > 0 {
      if !sdk.proofParses(node.proof) {
        return Failure(InvalidProof);
      }
      return Success(Hydrated(node, []));
    }
    var sources: seq<Hydrated> := [];
    var vin := 0;
    while vin < |inputs.value|
      invariant 0 <= vin == |sources| <= |inputs.value|
      invariant forall i :: 0 <= i < vin ==>
        inputs.value[i] in nodes && Hydrates(sdk, nodes, nodes[inputs.value[i]], sources[i])
    {
      var outpoint := inputs.value[vin];
      if outpoint !in nodes {
        return Failure(RequiredInputNotFound);
      }
      ghost var k := SourcePosition(sdk, nodes, node, deps, order, vin);
      EmittedIsReady(sdk, nodes, deps, order, outpoint, k);
      var source :- Hydrator(sdk, nodes, nodes[outpoint], deps, order[..k]);
      sources := sources + [source];
      vin := vin + 1;
    }
    return Success(Hydrated(node, sources));
  }

  lemma SourcePosition(sdk: Sdk, nodes: Nodes, node: GraphNode, deps: Deps, order: seq<Hash>, vin: nat) returns (k: nat)
    requires GraphOrdered(sdk, nodes, deps, order) && Ready(sdk, nodes, node, order)
    requires sdk.inputs(node.rawTx).Some? && vin < |sdk.inputs(node.rawTx).value|
    requires sdk.inputs(node.rawTx).value[vin] in nodes
    ensures k < |order| && order[k] == nodes[sdk.inputs(node.rawTx).value[vin]].txid
  {
    var p := sdk.inputs(node.rawTx).value[vin];
    assert Spends(sdk, node, vin, p.txid);
    assert nodes[p].txid in Txids(nodes);
    k :| 0 <= k < |order| && order[k] == p.txid;
  }

  // Computing the order

  /** The beefs stand for the hydrated transactions; BEEF encoding is foreign code. */
  ghost predicate OrderedBeefs(sdk: Sdk, nodes: Nodes, deps: Deps, beefs: seq<Hydrated>) {
    && Ordered(deps, BeefTxids(beefs))
    && forall i :: 0 <= i < |beefs| ==> IsNodeBeef(sdk, nodes, beefs[i])
  }

  ghost predicate IsNodeBeef(sdk: Sdk, nodes: Nodes, beef: Hydrated) {
    (exists p :: p in nodes && nodes[p] == beef.node) && Hydrates(sdk, nodes, beef.node, beef)
  }

  function BeefTxids(beefs: seq<Hydrated>): (r: seq<Hash>)
    ensures |r| == |beefs|
    ensures forall i :: 0 <= i < |r| ==> r[i] == beefs[i].node.txid
  {
    if beefs == [] then [] else BeefTxids(beefs[..|beefs| - 1]) + [beefs[|beefs| - 1].node.txid]
  }

  /** One node per transaction: of several outputs of one transaction, the map keeps the node visited last. */
  method CollectNodes(nodes: Nodes) returns (byTxid: map<Hash, Outpoint>)
    ensures byTxid.Keys == Txids(nodes)
    ensures forall txid :: txid in byTxid ==> byTxid[txid] in nodes && nodes[byTxid[txid]].txid == txid
  {
    byTxid := map[];
    var left := nodes.Keys;
    while left != {}
      invariant left <= nodes.Keys
      invariant forall txid :: txid in byTxid ==> byTxid[txid] in nodes && nodes[byTxid[txid]].txid == txid
      invariant forall p :: p in nodes && p !in left ==> nodes[p].txid in byTxid
    {
      var p :| p in left;
      byTxid := byTxid[nodes[p].txid := p];
      left := left - {p};
    }
  }

  method ComputeDeps(sdk: Sdk, nodes: Nodes, byTxid: map<Hash, Outpoint>) returns (r: Result<Deps, GraphError>)
    requires OneTransactionPerTxid(nodes) && byTxid.Keys == Txids(nodes)
    requires forall txid :: txid in byTxid ==> byTxid[txid] in nodes && nodes[byTxid[txid]].txid == txid
    ensures r.Success? ==> DepsOf(sdk, nodes, r.value)
    ensures r.Failure? ==> r.error == InvalidTransaction && exists p :: p in nodes && sdk.inputs(nodes[p].rawTx).None?
  {
    hide IsDep, OneTransactionPerTxid, Txids;
    var deps: Deps := map[];
    var left := byTxid.Keys;
    while left != {}
      invariant left <= byTxid.Keys
      invariant deps.Keys == byTxid.Keys - left
      invariant forall txid, dep :: txid in deps ==> (dep in deps[txid] <==> IsDep(sdk, nodes, txid, dep))
    {
      var txid :| txid in left;
      var node := nodes[byTxid[txid]];
      var inputs := sdk.inputs(node.rawTx);
      if inputs.None? {
        return Failure(InvalidTransaction);
      }
      var txDeps: set<Hash> := {};
      var i := 0;
      while i < |inputs.value|
        invariant 0 <= i <= |inputs.value|
        invariant forall dep :: dep in txDeps <==>
          dep != txid && dep in byTxid && exists j :: 0 <= j < i && inputs.value[j].txid == dep
      {
        var source := inputs.value[i].txid;
        if source in byTxid && source != txid {
          txDeps := txDeps + {source};
        }
        i := i + 1;
      }
      forall dep
        ensures dep in txDeps <==> IsDep(sdk, nodes, txid, dep)
      {
        DepsOfNode(sdk, nodes, byTxid[txid], dep);
      }
      deps := deps[txid := txDeps];
      left := left - {txid};
    }
    return Success(deps);
  }

  lemma DepsOfNode(sdk: Sdk, nodes: Nodes, p: Outpoint, dep: Hash)
    requires OneTransactionPerTxid(nodes) && p in nodes && sdk.inputs(nodes[p].rawTx).Some?
    ensures IsDep(sdk, nodes, nodes[p].txid, dep) <==>
            dep != nodes[p].txid && dep in Txids(nodes) &&
            exists j :: 0 <= j < |sdk.inputs(nodes[p].rawTx).value| && sdk.inputs(nodes[p].rawTx).value[j].txid == dep
  {
    if j :| 0 <= j < |sdk.inputs(nodes[p].rawTx).value| && sdk.inputs(nodes[p].rawTx).value[j].txid == dep {
      assert Spends(sdk, nodes[p], j, dep);
    }
  }

  ghost predicate Graph(sdk: Sdk, nodes: Nodes) {
    NodesValid(sdk, nodes) && OneTransactionPerTxid(nodes) && NoSelfSpending(sdk, nodes)
  }

  ghost predicate Emitted(order: seq<Hash>, emitted: set<Hash>) {
    forall txid :: txid in emitted <==> txid in order
  }

  lemma EmitOne(deps: Deps, order: seq<Hash>, txid: Hash)
    requires Ordered(deps, order) && txid in deps && txid !in order && DepsBefore(deps[txid], order)
    ensures Ordered(deps, order + [txid])
  {
    var longer := order + [txid];
    forall i | 0 <= i < |longer|
      ensures longer[i] in deps && DepsBefore(deps[longer[i]], longer[..i])
    {
      if i < |order| {
        assert longer[..i] == order[..i];
        assert DepsBefore(deps[order[i]], order[..i]);
      } else {
        assert longer[..i] == order;
      }
    }
  }

  /** Some transaction that is left waits for none of the others, or there is a cycle. */
  lemma StuckOrDone(deps: Deps, emitted: set<Hash>)
    requires emitted < deps.Keys && forall txid :: txid in deps ==> deps[txid] <= deps.Keys
    requires forall txid :: txid in deps && txid !in emitted ==> !(deps[txid] <= emitted)
    ensures HasCycle(deps)
  {
    var stuck := deps.Keys - emitted;
    assert !(deps.Keys <= emitted);
    var first :| first in deps.Keys && first !in emitted;
    forall txid | txid in stuck
      ensures Waits(deps, stuck, txid)
    {
      var dep :| dep in deps[txid] && dep !in emitted;
      assert dep in stuck;
    }
    assert Path(deps, [first]);
    StuckHasCycle(deps, stuck, [first]);
  }

  lemma DepsAreTxids(sdk: Sdk, nodes: Nodes, deps: Deps)
    requires DepsOf(sdk, nodes, deps)
    ensures deps.Keys == Txids(nodes) && forall txid :: txid in deps ==> deps[txid] <= deps.Keys
  {
    forall txid, dep | txid in deps && dep in deps[txid]
      ensures dep in deps
    {
      assert IsDep(sdk, nodes, txid, dep);
    }
  }

  /**
   * Some node whose transaction can be emitted, because all it depends on can be emitted before it, lacks a hydrated
   * source, a parsed transaction or a parsed proof. Nodes on a cycle are not of this kind.
   */
  ghost predicate EmittableUnhydrated(sdk: Sdk, nodes: Nodes, deps: Deps) {
    exists p, order :: p in nodes && Emittable(deps, order, nodes[p].txid) && NeverHydrates(sdk, nodes, nodes[p])
  }

  ghost predicate Emittable(deps: Deps, order: seq<Hash>, txid: Hash) {
    Ordered(deps, order) && txid in deps && txid !in order && DepsBefore(deps[txid], order)
  }

  /** Every transaction that can be emitted has a node that hydrates. */
  ghost predicate EmittableHydrate(sdk: Sdk, nodes: Nodes, deps: Deps) {
    forall order, txid :: Emittable(deps, order, txid) ==> SomeNodeHydrates(sdk, nodes, txid)
  }

  ghost predicate SomeNodeHydrates(sdk: Sdk, nodes: Nodes, txid: Hash) {
    exists p :: p in nodes && nodes[p].txid == txid && !NeverHydrates(sdk, nodes, nodes[p])
  }

  /** Where no transaction is left that waits for emitted ones only, all that can be emitted has been. */
  lemma {:induction false} EmittableIsEmitted(deps: Deps, emitted: set<Hash>, order: seq<Hash>, n: nat)
    requires forall txid :: txid in deps && txid !in emitted ==> !(deps[txid] <= emitted)
    requires Ordered(deps, order) && n <= |order|
    ensures forall i :: 0 <= i < n ==> order[i] in emitted
  {
    if n > 0 {
      EmittableIsEmitted(deps, emitted, order, n - 1);
      assert DepsBefore(deps[order[n - 1]], order[..n - 1]);
    }
  }

  lemma AllEmittableHydrate(sdk: Sdk, nodes: Nodes, deps: Deps, beefs: seq<Hydrated>, emitted: set<Hash>)
    requires EmitInv(sdk, nodes, deps, beefs, emitted)
    requires forall txid :: txid in deps && txid !in emitted ==> !(deps[txid] <= emitted)
    ensures EmittableHydrate(sdk, nodes, deps)
  {
    hide Hydrates, Ordered;
    forall order, txid | Emittable(deps, order, txid)
      ensures SomeNodeHydrates(sdk, nodes, txid)
    {
      EmittableIsEmitted(deps, emitted, order, |order|);
      assert txid in BeefTxids(beefs);
      var i :| 0 <= i < |beefs| && BeefTxids(beefs)[i] == txid;
      assert IsNodeBeef(sdk, nodes, beefs[i]);
      var p :| p in nodes && nodes[p] == beefs[i].node;
      assert !NeverHydrates(sdk, nodes, nodes[p]);
    }
  }

  ghost predicate NeverHydrates(sdk: Sdk, nodes: Nodes, node: GraphNode) {
    forall tree :: !Hydrates(sdk, nodes, node, tree)
  }

  lemma BeefAppend(beefs: seq<Hydrated>, beef: Hydrated)
    ensures BeefTxids(beefs + [beef]) == BeefTxids(beefs) + [beef.node.txid]
  {
    assert (beefs + [beef])[..|beefs|] == beefs;
  }

  /** What every emission keeps. */
  ghost predicate EmitInv(sdk: Sdk, nodes: Nodes, deps: Deps, beefs: seq<Hydrated>, emitted: set<Hash>) {
    emitted <= deps.Keys && Emitted(BeefTxids(beefs), emitted) && OrderedBeefs(sdk, nodes, deps, beefs)
  }

  ghost predicate Chosen(nodes: Nodes, deps: Deps, byTxid: map<Hash, Outpoint>) {
    && byTxid.Keys == deps.Keys
    && forall txid :: txid in byTxid ==> byTxid[txid] in nodes && nodes[byTxid[txid]].txid == txid
  }

  lemma EmitKeepsInv(sdk: Sdk, nodes: Nodes, deps: Deps, beefs: seq<Hydrated>, emitted: set<Hash>, p: Outpoint, beef: Hydrated)
    requires EmitInv(sdk, nodes, deps, beefs, emitted) && p in nodes && Hydrates(sdk, nodes, nodes[p], beef)
    requires nodes[p].txid in deps && nodes[p].txid !in emitted && deps[nodes[p].txid] <= emitted
    ensures EmitInv(sdk, nodes, deps, beefs + [beef], emitted + {nodes[p].txid})
  {
    hide Ordered, Hydrates;
    BeefAppend(beefs, beef);
    EmitOne(deps, BeefTxids(beefs), nodes[p].txid);
    NodeBeef(sdk, nodes, p, beef);
  }

  /** One pass over the dependencies in any map order. */
  method EmitPass(sdk: Sdk, nodes: Nodes, deps: Deps, byTxid: map<Hash, Outpoint>, beefs: seq<Hydrated>, emitted: set<Hash>)
    returns (error: Option<GraphError>, beefs': seq<Hydrated>, emitted': set<Hash>)
    requires Graph(sdk, nodes) && DepsOf(sdk, nodes, deps) && Chosen(nodes, deps, byTxid)
    requires EmitInv(sdk, nodes, deps, beefs, emitted) && emitted <= deps.Keys
    ensures error.Some? ==>
      error.value in {InvalidTransaction, InvalidProof, RequiredInputNotFound} && EmittableUnhydrated(sdk, nodes, deps)
    ensures error.None? ==> EmitInv(sdk, nodes, deps, beefs', emitted') && emitted <= emitted' <= deps.Keys
    ensures error.None? && emitted' == emitted ==> forall txid :: txid in deps && txid !in emitted ==> !(deps[txid] <= emitted)
  {
    hide EmitInv, Graph, DepsOf, Hydrates, Ordered;
    beefs', emitted' := beefs, emitted;
    var left := deps.Keys;
    while left != {}
      invariant left <= deps.Keys && emitted <= emitted' <= deps.Keys && EmitInv(sdk, nodes, deps, beefs', emitted')
      invariant emitted' == emitted ==> forall txid :: txid in deps && txid !in left && txid !in emitted ==> !(deps[txid] <= emitted)
      decreases left
    {
      var txid :| txid in left;
      left := left - {txid};
      if txid !in emitted' && deps[txid] <= emitted' {
        var p := byTxid[txid];
        EmittableIsReady(sdk, nodes, deps, beefs', emitted', p);
        var beef := Hydrator(sdk, nodes, nodes[p], deps, BeefTxids(beefs'));
        if beef.Failure? {
          Unhydrated(sdk, nodes, deps, beefs', emitted', p);
          return Some(beef.error), beefs', emitted';
        }
        EmitKeepsInv(sdk, nodes, deps, beefs', emitted', p, beef.value);
        beefs' := beefs' + [beef.value];
        emitted' := emitted' + {txid};
      }
    }
    return None, beefs', emitted';
  }

  /**
   * Passes over the transactions in any map order, again and again, until all are emitted or a pass emits none.
   * On success every transaction of the graph comes exactly once and after all it spends from in the graph. An error
   * other than the cycle error is about a node that could be emitted; without one, the call fails exactly on a cycle.
   */
  method ComputeOrderedBeefs(sdk: Sdk, nodes: Nodes) returns (r: Result<seq<Hydrated>, GraphError>, ghost deps: Deps)
    requires Graph(sdk, nodes)
    ensures r == Failure(RootNotFound) <==> nodes == map[]
    ensures nodes != map[] ==> DepsOf(sdk, nodes, deps)
    ensures r.Success? ==> OrderedBeefs(sdk, nodes, deps, r.value)
    ensures r.Success? ==> forall txid :: txid in BeefTxids(r.value) <==> txid in Txids(nodes)
    ensures r.Success? ==> !HasCycle(deps)
    ensures r == Failure(DependencyCycle) ==> HasCycle(deps)
    ensures r.Success? || r == Failure(DependencyCycle) ==> EmittableHydrate(sdk, nodes, deps)
    ensures r.Failure? && nodes != map[] && r.error != DependencyCycle ==> EmittableUnhydrated(sdk, nodes, deps)
    ensures nodes != map[] && !EmittableUnhydrated(sdk, nodes, deps) ==>
      (r == Failure(DependencyCycle) <==> HasCycle(deps)) && (r.Success? <==> !HasCycle(deps))
  {
    hide OrderedBeefs, DepsOf, Graph, HasCycle, EmittableUnhydrated, EmittableHydrate, Txids, EmitInv, Emitted, OneTransactionPerTxid,
      NoSelfSpending, BeefTxids;
    deps := map[];
    var byTxid := CollectNodes(nodes);
    NoTxids(nodes);
    if |byTxid| == 0 {
      return Failure(RootNotFound), deps;
    }
    GraphParts(sdk, nodes);
    var computed := ComputeDeps(sdk, nodes, byTxid);
    assert computed.Success?;
    var dependencies := computed.value;
    deps := dependencies;
    DepsAreTxids(sdk, nodes, deps);
    var beefs: seq<Hydrated> := [];
    var emitted: set<Hash> := {};
    NothingOrdered(sdk, nodes, deps);
    while emitted != byTxid.Keys
      invariant EmitInv(sdk, nodes, deps, beefs, emitted) && emitted <= deps.Keys
      decreases deps.Keys - emitted
    {
      var error, beefs', emitted' := EmitPass(sdk, nodes, dependencies, byTxid, beefs, emitted);
      if error.Some? {
        return Failure(error.value), deps;
      }
      if emitted' == emitted {
        StuckOrDone(deps, emitted);
        AllEmittableHydrate(sdk, nodes, deps, beefs, emitted);
        return Failure(DependencyCycle), deps;
      }
      beefs, emitted := beefs', emitted';
    }
    AllEmitted(sdk, nodes, deps, beefs);
    AllEmittableHydrate(sdk, nodes, deps, beefs, emitted);
    return Success(beefs), deps;
  }

  lemma AllEmitted(sdk: Sdk, nodes: Nodes, deps: Deps, beefs: seq<Hydrated>)
    requires EmitInv(sdk, nodes, deps, beefs, deps.Keys)
    ensures !HasCycle(deps) && OrderedBeefs(sdk, nodes, deps, beefs)
    ensures forall txid :: txid in BeefTxids(beefs) <==> txid in deps
  {
    OrderedHasNoCycle(deps, BeefTxids(beefs));
  }

  lemma NoTxids(nodes: Nodes)
    ensures Txids(nodes) == {} <==> nodes == map[]
  {
    assert forall p :: p in nodes ==> nodes[p].txid in Txids(nodes);
  }

  lemma GraphParts(sdk: Sdk, nodes: Nodes)
    requires Graph(sdk, nodes)
    ensures OneTransactionPerTxid(nodes) && NoSelfSpending(sdk, nodes) && NodesValid(sdk, nodes)
  {
  }

  lemma NothingOrdered(sdk: Sdk, nodes: Nodes, deps: Deps)
    ensures EmitInv(sdk, nodes, deps, [], {})
  {
  }

  lemma EmittableIsReady(sdk: Sdk, nodes: Nodes, deps: Deps, beefs: seq<Hydrated>, emitted: set<Hash>, p: Outpoint)
    requires Graph(sdk, nodes) && DepsOf(sdk, nodes, deps) && EmitInv(sdk, nodes, deps, beefs, emitted)
    requires p in nodes && nodes[p].txid in deps && deps[nodes[p].txid] <= emitted
    ensures GraphOrdered(sdk, nodes, deps, BeefTxids(beefs)) && Ready(sdk, nodes, nodes[p], BeefTxids(beefs))
  {
    WaitingForNothingIsReady(sdk, nodes, deps, BeefTxids(beefs), p);
  }

  lemma Unhydrated(sdk: Sdk, nodes: Nodes, deps: Deps, beefs: seq<Hydrated>, emitted: set<Hash>, p: Outpoint)
    requires EmitInv(sdk, nodes, deps, beefs, emitted) && p in nodes && forall tree :: !Hydrates(sdk, nodes, nodes[p], tree)
    requires nodes[p].txid in deps && nodes[p].txid !in emitted && deps[nodes[p].txid] <= emitted
    ensures EmittableUnhydrated(sdk, nodes, deps)
  {
    hide Ordered;
    assert NeverHydrates(sdk, nodes, nodes[p]);
    assert Emittable(deps, BeefTxids(beefs), nodes[p].txid);
  }

  lemma NodeBeef(sdk: Sdk, nodes: Nodes, p: Outpoint, beef: Hydrated)
    requires p in nodes && Hydrates(sdk, nodes, nodes[p], beef)
    ensures IsNodeBeef(sdk, nodes, beef) && beef.node == nodes[p]
  {
  }
}
