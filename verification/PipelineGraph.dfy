/** The graphs that mercury/graph/agent.py wires, and the paths they allow. */
module PipelineGraph {
  import opened Outcomes
  import opened Text
  import opened Transactions
  import opened Policy
  import opened IdempotencyStore
  import opened Pipeline

  /** Node names of the value-moving graphs. */
  datatype Place =
    | START | END | UnsupportedResponse
    | PrepareErc20Transaction | PrepareNativeTransaction | PrepareSwapTransaction | EndSwapTypedOrder
    | ResolveNoncePlace | PopulateGasPlace | SimulatePlace | PolicyPlace | ApprovalPlace | IdempotencyPlace
    | SignPlace | BroadcastPlace | MonitorPlace | RejectPlace

  /** Where a run may go from where. */
  type Edges = set<(Place, Place)>

  function Fan(from: Place, targets: set<Place>): Edges {
    set to | to in targets :: (from, to)
  }

  class StateGraph {
    var nodes: set<Place>
    var edges: Edges

    constructor ()
      ensures nodes == {} && edges == {}
    {
      nodes := {};
      edges := {};
    }

    method AddNode(name: Place)
      modifies this
      ensures nodes == old(nodes) + {name} && edges == old(edges)
    {
      nodes := nodes + {name};
    }

    method AddEdge(from: Place, to: Place)
      modifies this
      ensures nodes == old(nodes) && edges == old(edges) + {(from, to)}
    {
      edges := edges + {(from, to)};
    }

    method AddConditionalEdges(from: Place, targets: set<Place>)
      modifies this
      ensures nodes == old(nodes) && edges == old(edges) + Fan(from, targets)
    {
      edges := edges + Fan(from, targets);
    }
  }

  /** The pipeline's edges on top of the edges a graph has already. */
  function WithPipeline(edges: Edges): Edges {
    edges + {(ResolveNoncePlace, PopulateGasPlace)} + {(PopulateGasPlace, SimulatePlace)} + {(SimulatePlace, PolicyPlace)}
    + Fan(PolicyPlace, {RejectPlace, ApprovalPlace, IdempotencyPlace}) + Fan(ApprovalPlace, {RejectPlace, IdempotencyPlace})
    + Fan(IdempotencyPlace, {RejectPlace, SignPlace}) + {(SignPlace, BroadcastPlace)} + {(BroadcastPlace, MonitorPlace)}
    + {(MonitorPlace, END)} + {(RejectPlace, END)}
  }

  method AddTransactionPipeline(builder: StateGraph)
    modifies builder
    ensures builder.edges == WithPipeline(old(builder.edges))
    ensures old(builder.nodes) <= builder.nodes
    ensures forall p | Stage(p) > 0 || p == SimulatePlace || p == RejectPlace :: p in builder.nodes
  {
    hide Fan;
    builder.AddNode(ResolveNoncePlace);
    builder.AddNode(PopulateGasPlace);
    builder.AddNode(SimulatePlace);
    builder.AddNode(PolicyPlace);
    builder.AddNode(ApprovalPlace);
    builder.AddNode(IdempotencyPlace);
    builder.AddNode(SignPlace);
    builder.AddNode(BroadcastPlace);
    builder.AddNode(MonitorPlace);
    builder.AddNode(RejectPlace);

    builder.AddEdge(ResolveNoncePlace, PopulateGasPlace);
    builder.AddEdge(PopulateGasPlace, SimulatePlace);
    builder.AddEdge(SimulatePlace, PolicyPlace);
    builder.AddConditionalEdges(PolicyPlace, {RejectPlace, ApprovalPlace, IdempotencyPlace});
    builder.AddConditionalEdges(ApprovalPlace, {RejectPlace, IdempotencyPlace});
    builder.AddConditionalEdges(IdempotencyPlace, {RejectPlace, SignPlace});
    builder.AddEdge(SignPlace, BroadcastPlace);
    builder.AddEdge(BroadcastPlace, MonitorPlace);
    builder.AddEdge(MonitorPlace, END);
    builder.AddEdge(RejectPlace, END);
  }

  /** The four entrances to the pipeline. */
  datatype Entrance = Transaction | Erc20 | Native | Swap

  function GraphEdges(entrance: Entrance): Edges {
    var pipeline := WithPipeline({});
    match entrance
    case Transaction => pipeline + {(START, ResolveNoncePlace)}
    case Erc20 =>
      pipeline + Fan(START, {PrepareErc20Transaction, UnsupportedResponse})
      + Fan(PrepareErc20Transaction, {RejectPlace, ResolveNoncePlace}) + {(UnsupportedResponse, END)}
    case Native =>
      pipeline + Fan(START, {PrepareNativeTransaction, UnsupportedResponse})
      + Fan(PrepareNativeTransaction, {RejectPlace, ResolveNoncePlace}) + {(UnsupportedResponse, END)}
    case Swap =>
      pipeline + Fan(START, {PrepareSwapTransaction, UnsupportedResponse})
      + Fan(PrepareSwapTransaction, {RejectPlace, ResolveNoncePlace, EndSwapTypedOrder})
      + {(UnsupportedResponse, END)} + {(EndSwapTypedOrder, END)}
  }

  method BuildTransactionGraph() returns (builder: StateGraph)
    ensures fresh(builder) && builder.edges == GraphEdges(Transaction)
  {
    hide Fan, WithPipeline;
    builder := new StateGraph();
    AddTransactionPipeline(builder);
    builder.AddEdge(START, ResolveNoncePlace);
  }

  method BuildErc20TransactionGraph() returns (builder: StateGraph)
    ensures fresh(builder) && builder.edges == GraphEdges(Erc20)
  {
    hide Fan, WithPipeline;
    builder := new StateGraph();
    builder.AddNode(PrepareErc20Transaction);
    builder.AddNode(UnsupportedResponse);
    AddTransactionPipeline(builder);
    builder.AddConditionalEdges(START, {PrepareErc20Transaction, UnsupportedResponse});
    builder.AddConditionalEdges(PrepareErc20Transaction, {RejectPlace, ResolveNoncePlace});
    builder.AddEdge(UnsupportedResponse, END);
  }

  method BuildNativeTransactionGraph() returns (builder: StateGraph)
    ensures fresh(builder) && builder.edges == GraphEdges(Native)
  {
    hide Fan, WithPipeline;
    builder := new StateGraph();
    builder.AddNode(PrepareNativeTransaction);
    builder.AddNode(UnsupportedResponse);
    AddTransactionPipeline(builder);
    builder.AddConditionalEdges(START, {PrepareNativeTransaction, UnsupportedResponse});
    builder.AddConditionalEdges(PrepareNativeTransaction, {RejectPlace, ResolveNoncePlace});
    builder.AddEdge(UnsupportedResponse, END);
  }

  method BuildSwapTransactionGraph() returns (builder: StateGraph)
    ensures fresh(builder) && builder.edges == GraphEdges(Swap)
  {
    hide Fan, WithPipeline;
    builder := new StateGraph();
    builder.AddNode(PrepareSwapTransaction);
    builder.AddNode(UnsupportedResponse);
    builder.AddNode(EndSwapTypedOrder);
    AddTransactionPipeline(builder);
    builder.AddConditionalEdges(START, {PrepareSwapTransaction, UnsupportedResponse});
    builder.AddConditionalEdges(PrepareSwapTransaction, {RejectPlace, ResolveNoncePlace, EndSwapTypedOrder});
    builder.AddEdge(UnsupportedResponse, END);
    builder.AddEdge(EndSwapTypedOrder, END);
  }

  // ---------------------------------------------------------------- paths

  predicate IsPath(edges: Edges, path: seq<Place>) {
    && path != [] && path[0] == START
    && forall i | 0 <= i < |path| - 1 :: (path[i], path[i + 1]) in edges
  }

  /** How many gates lie before a place. */
  function Stage(p: Place): nat {
    match p
    case PolicyPlace => 1
    case ApprovalPlace => 2
    case IdempotencyPlace => 2
    case SignPlace => 3
    case BroadcastPlace => 4
    case MonitorPlace => 5
    case _ => 0
  }

  /** The gates, in order. */
  const GATES: seq<Place> := [SimulatePlace, PolicyPlace, IdempotencyPlace, SignPlace, BroadcastPlace]

  /** Where the pipeline leads from each of its nodes. */
  function Targets(from: Place): set<Place> {
    match from
    case ResolveNoncePlace => {PopulateGasPlace}
    case PopulateGasPlace => {SimulatePlace}
    case SimulatePlace => {PolicyPlace}
    case PolicyPlace => {RejectPlace, ApprovalPlace, IdempotencyPlace}
    case ApprovalPlace => {RejectPlace, IdempotencyPlace}
    case IdempotencyPlace => {RejectPlace, SignPlace}
    case SignPlace => {BroadcastPlace}
    case BroadcastPlace => {MonitorPlace}
    case MonitorPlace => {END}
    case RejectPlace => {END}
    case _ => {}
  }

  lemma PipelineLeads(from: Place, to: Place)
    ensures (from, to) in WithPipeline({}) <==> to in Targets(from)
  {
    hide Fan;
    FanLeads(from, to, PolicyPlace, {RejectPlace, ApprovalPlace, IdempotencyPlace});
    FanLeads(from, to, ApprovalPlace, {RejectPlace, IdempotencyPlace});
    FanLeads(from, to, IdempotencyPlace, {RejectPlace, SignPlace});
  }

  lemma FanLeads(from: Place, to: Place, start: Place, targets: set<Place>)
    ensures (from, to) in Fan(start, targets) <==> from == start && to in targets
  {
  }

  lemma TargetsPassOneGate(from: Place, to: Place)
    requires to in Targets(from)
    ensures Stage(to) <= Stage(from) || (Stage(from) < 5 && Stage(to) == Stage(from) + 1 && from == GATES[Stage(from)])
  {
  }

  /** An edge passes at most one gate, and then it leaves from that gate. */
  lemma EdgePassesOneGate(entrance: Entrance, from: Place, to: Place)
    requires (from, to) in GraphEdges(entrance)
    ensures Stage(to) <= Stage(from) || (Stage(from) < 5 && Stage(to) == Stage(from) + 1 && from == GATES[Stage(from)])
  {
    hide WithPipeline, Targets;
    PipelineLeads(from, to);
    if to in Targets(from) {
      TargetsPassOneGate(from, to);
    } else {
      assert Stage(to) == 0;
    }
  }

  lemma {:induction false} PathsPassGates(entrance: Entrance, path: seq<Place>, k: nat)
    requires IsPath(GraphEdges(entrance), path) && k < Stage(path[|path| - 1])
    ensures k < |GATES| && GATES[k] in path[..|path| - 1]
  {
    hide GraphEdges;
    var before := path[..|path| - 1];
    assert before != [];
    var last := before[|before| - 1];
    assert (last, path[|before|]) in GraphEdges(entrance);
    EdgePassesOneGate(entrance, last, path[|before|]);
    if k < Stage(last) {
      assert IsPath(GraphEdges(entrance), before);
      PathsPassGates(entrance, before, k);
    }
  }

  /** In each of the four graphs, every path to a broadcast goes through simulation, policy,
      the idempotency gate and signing. */
  lemma GatesGuardBroadcast(entrance: Entrance, path: seq<Place>)
    requires IsPath(GraphEdges(entrance), path) && path[|path| - 1] == BroadcastPlace
    ensures SimulatePlace in path && PolicyPlace in path && IdempotencyPlace in path && SignPlace in path
  {
    hide GraphEdges;
    PathsPassGates(entrance, path, 0);
    PathsPassGates(entrance, path, 1);
    PathsPassGates(entrance, path, 2);
    PathsPassGates(entrance, path, 3);
  }

  /** The node that prepares a transaction, in the graphs that have one. */
  function Preparer(entrance: Entrance): Option<Place> {
    match entrance
    case Transaction => None
    case Erc20 => Some(PrepareErc20Transaction)
    case Native => Some(PrepareNativeTransaction)
    case Swap => Some(PrepareSwapTransaction)
  }

  /** Where each graph leads from the nodes that are not the pipeline's. */
  function EntranceTargets(entrance: Entrance, from: Place): set<Place> {
    match Preparer(entrance)
    case None => if from == START then {ResolveNoncePlace} else {}
    case Some(preparer) =>
      if from == START then {preparer, UnsupportedResponse}
      else if from == preparer then
        {RejectPlace, ResolveNoncePlace} + if entrance == Swap then {EndSwapTypedOrder} else {}
      else if from == UnsupportedResponse || (entrance == Swap && from == EndSwapTypedOrder) then {END}
      else {}
  }

  /** The edges of the four graphs, one by one. */
  lemma EntranceLeads(entrance: Entrance, from: Place, to: Place)
    ensures (from, to) in GraphEdges(entrance) <==> to in Targets(from) || to in EntranceTargets(entrance, from)
  {
    hide WithPipeline, Targets, Fan;
    PipelineLeads(from, to);
    FanLeads(from, to, START, {PrepareErc20Transaction, UnsupportedResponse});
    FanLeads(from, to, PrepareErc20Transaction, {RejectPlace, ResolveNoncePlace});
    FanLeads(from, to, START, {PrepareNativeTransaction, UnsupportedResponse});
    FanLeads(from, to, PrepareNativeTransaction, {RejectPlace, ResolveNoncePlace});
    FanLeads(from, to, START, {PrepareSwapTransaction, UnsupportedResponse});
    FanLeads(from, to, PrepareSwapTransaction, {RejectPlace, ResolveNoncePlace, EndSwapTypedOrder});
  }

  /** Where a path of a graph has got to. */
  predicate Belongs(entrance: Entrance, p: Place) {
    || p == START || p == END || Targets(p) != {} || EntranceTargets(entrance, p) != {}
  }

  lemma EdgesBelong(entrance: Entrance, from: Place, to: Place)
    requires to in Targets(from) || to in EntranceTargets(entrance, from)
    ensures Belongs(entrance, to)
  {
    hide Targets;
    SomeLead();
    if to in Targets(from) {
      TargetsLead(from, to);
    }
  }

  lemma TargetsLead(from: Place, to: Place)
    requires to in Targets(from)
    ensures to == END || Targets(to) != {}
  {
    SomeLead();
  }

  lemma SomeLead()
    ensures Targets(RejectPlace) != {} && Targets(ResolveNoncePlace) != {} && Targets(PopulateGasPlace) != {}
    ensures Targets(SimulatePlace) != {} && Targets(PolicyPlace) != {} && Targets(ApprovalPlace) != {}
    ensures Targets(IdempotencyPlace) != {} && Targets(SignPlace) != {} && Targets(BroadcastPlace) != {}
    ensures Targets(MonitorPlace) != {}
  {
    assert END in Targets(RejectPlace) && PopulateGasPlace in Targets(ResolveNoncePlace);
    assert SimulatePlace in Targets(PopulateGasPlace) && PolicyPlace in Targets(SimulatePlace);
    assert RejectPlace in Targets(PolicyPlace) && RejectPlace in Targets(ApprovalPlace);
    assert RejectPlace in Targets(IdempotencyPlace) && BroadcastPlace in Targets(SignPlace);
    assert MonitorPlace in Targets(BroadcastPlace) && END in Targets(MonitorPlace);
  }

  /** No path gets stuck before the end. */
  lemma PathsGoOn(entrance: Entrance, path: seq<Place>)
    requires IsPath(GraphEdges(entrance), path) && path[|path| - 1] != END
    ensures exists next :: IsPath(GraphEdges(entrance), path + [next])
  {
    hide GraphEdges, Targets, EntranceTargets;
    var last := path[|path| - 1];
    if |path| > 1 {
      EntranceLeads(entrance, path[|path| - 2], last);
      assert (path[|path| - 2], path[|path| - 2 + 1]) in GraphEdges(entrance);
      EdgesBelong(entrance, path[|path| - 2], last);
    }
    StartLeads(entrance);
    var next :| next in Targets(last) || next in EntranceTargets(entrance, last);
    EntranceLeads(entrance, last, next);
    assert IsPath(GraphEdges(entrance), path + [next]);
  }

  lemma StartLeads(entrance: Entrance)
    ensures EntranceTargets(entrance, START) != {}
  {
    assert match Preparer(entrance)
      case None => ResolveNoncePlace in EntranceTargets(entrance, START)
      case Some(preparer) => preparer in EntranceTargets(entrance, START);
  }

  /** Where there is a node that prepares transactions, no path reaches the pipeline past it. */
  lemma PreparationComesFirst(entrance: Entrance, path: seq<Place>)
    requires entrance != Transaction && IsPath(GraphEdges(entrance), path)
    requires path[|path| - 1] == ResolveNoncePlace
    ensures |path| >= 2 && Some(path[|path| - 2]) == Preparer(entrance)
  {
    hide GraphEdges;
    var before := path[|path| - 2];
    assert (before, path[|path| - 2 + 1]) in GraphEdges(entrance);
    EntranceLeads(entrance, before, ResolveNoncePlace);
  }

  // ---------------------------------------------------------------- the protocol walks the graph

  /** Where each protocol node sits in the graph; the steps of one node share a place. */
  function PlaceOf(n: Node): Place {
    match n
    case ResolveNonce => ResolveNoncePlace
    case PopulateGas => PopulateGasPlace
    case SimulateTransaction => SimulatePlace
    case EvaluatePolicy => PolicyPlace
    case RequestApproval => ApprovalPlace
    case CheckIdempotency => IdempotencyPlace
    case SignTransaction => SignPlace
    case ReleaseAfterSign(_) => SignPlace
    case BroadcastTransaction => BroadcastPlace
    case ReleaseAfterBroadcast(_) => BroadcastPlace
    case MonitorReceipt => MonitorPlace
    case RecordReceipt(_) => MonitorPlace
    case RecordFailure(_) => MonitorPlace
    case Crashed => MonitorPlace
    case RejectTransaction => RejectPlace
    case Finished => END
  }

  predicate Follows(from: Node, to: Node) {
    PlaceOf(to) == PlaceOf(from) || (PlaceOf(from), PlaceOf(to)) in WithPipeline({})
  }

  /** How many steps a run can still take. */
  function Rank(n: Node): nat {
    match n
    case ResolveNonce => 12
    case PopulateGas => 11
    case SimulateTransaction => 10
    case EvaluatePolicy => 9
    case RequestApproval => 8
    case CheckIdempotency => 7
    case SignTransaction => 6
    case ReleaseAfterSign(_) => 5
    case BroadcastTransaction => 4
    case ReleaseAfterBroadcast(_) => 3
    case MonitorReceipt => 2
    case RecordReceipt(_) => 1
    case RecordFailure(_) => 1
    case RejectTransaction => 1
    case Finished => 0
    case Crashed => 0
  }

  /** Along an edge, and closer to the end. */
  predicate Descends(from: Node, to: Node) {
    Follows(from, to) && Rank(to) < Rank(from)
  }

  lemma StoreStepsLead(id: RunId, s: State, a: Answers, records: Records)
    ensures var to := CheckIdempotencyStep(id, s, records).run.at; to == RejectTransaction || to == SignTransaction
    ensures var to := SignStep(id, s, a, records).run.at; to == BroadcastTransaction || to.ReleaseAfterSign?
    ensures var to := BroadcastStep(id, s, a, records).run.at; to == MonitorReceipt || to.ReleaseAfterBroadcast?
  {
    hide FailedAt, AfterReserve;
  }

  lemma MonitorLeads(id: RunId, s: State, a: Answers, records: Records)
    ensures var to := MonitorStep(id, s, a, records).run.at;
      to == Finished || to.RecordReceipt? || to.RecordFailure? || to == Crashed
  {
    hide FailedAt, ResultFromReceipt;
  }

  lemma LastStepsLead(id: RunId, s: State, stage: string, message: string, next: Node, result: ExecutionResult,
                         records: Records)
    ensures ReleaseStep(id, s, stage, message, next, records).run.at == next
    ensures CompleteStep(id, s, result, records).run.at == Finished
    ensures RecordFailureStep(id, s, result, records).run.at == Finished
  {
    hide FailedAt, AfterComplete, AfterRelease, Strip;
  }

  /** Every step of a run that has not stopped follows an edge of the built pipeline, or is
      a later step of the same node, and strictly approaches the end. */
  lemma AdvanceWalksTheGraph(config: PolicyConfig, id: RunId, run: Run, records: Records, a: Answers)
    requires run.at != Finished && run.at != Crashed
    ensures Descends(run.at, Advance(config, id, run, records, a).run.at)
  {
    hide WithPipeline, EvaluatePolicyNode, RequestApprovalNode, ResolveNonceNode, PopulateGasNode, SimulateNode, RejectNode,
      FailedAt, CheckIdempotencyStep, SignStep, ReleaseStep, BroadcastStep, MonitorStep, CompleteStep, RecordFailureStep;
    var s := run.state;
    var some := ResultFromState(s, Pending, None);
    var to := Advance(config, id, run, records, a).run.at;
    PipelineLeads(PlaceOf(run.at), PlaceOf(to));
    match run.at
    case CheckIdempotency => StoreStepsLead(id, s, a, records);
    case SignTransaction => StoreStepsLead(id, s, a, records);
    case ReleaseAfterSign(m) => LastStepsLead(id, s, "sign_transaction", m, BroadcastTransaction, some, records);
    case BroadcastTransaction => StoreStepsLead(id, s, a, records);
    case ReleaseAfterBroadcast(m) => LastStepsLead(id, s, "broadcast_transaction", m, MonitorReceipt, some, records);
    case MonitorReceipt => MonitorLeads(id, s, a, records);
    case RecordReceipt(outcome) => LastStepsLead(id, s, "", "", Finished, outcome, records);
    case RecordFailure(outcome) => LastStepsLead(id, s, "", "", Finished, outcome, records);
    case _ =>
  }
}
