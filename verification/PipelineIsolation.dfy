/** Runs that share no key do not disturb each other: a run whose key nobody else carries goes
    exactly as if it were alone, whatever is interleaved with it. */
module PipelineIsolation {
  import opened Outcomes
  import opened Text
  import opened Transactions
  import opened Policy
  import opened IdempotencyStore
  import opened Pipeline
  import opened Ownership
  import opened Stories
  import opened PipelineSafety
  import opened PipelineTheorems
  import opened PipelineGraph
  import opened PipelineResults

  /** The run carries no other key. */
  ghost predicate CarriesOnly(run: Run, key: Key) {
    forall other: Key | other != key :: !Names(run, other)
  }

  /** What a run on its own comes to: its steps, its own records, and the calls it made. */
  function AloneAfter(config: PolicyConfig, id: RunId, start: Run, records: Records, answers: seq<Answers>): Effect
    decreases |answers|
  {
    if answers == [] then Effect(start, records, [])
    else
      var before := AloneAfter(config, id, start, records, answers[..|answers| - 1]);
      var e := Advance(config, id, before.run, before.records, answers[|answers| - 1]);
      Effect(e.run, e.records, before.events + e.events)
  }

  /** The answers a run gets, in the order of its turns. */
  function AnswersOf(actions: seq<Action>, id: RunId): seq<Answers> {
    if actions == [] then []
    else
      var before, last := AnswersOf(actions[..|actions| - 1], id), actions[|actions| - 1];
      if last.run == id then before + [last.answers] else before
  }

  /** The calls of one run. */
  function CallsOf(trace: seq<Event>, id: RunId): seq<Event> {
    if trace == [] then []
    else
      var before, last := CallsOf(trace[..|trace| - 1], id), trace[|trace| - 1];
      if last.run == id then before + [last] else before
  }

  lemma CallsAfter(trace: seq<Event>, events: seq<Event>, id: RunId)
    requires |events| <= 1
    ensures CallsOf(trace + events, id)
         == CallsOf(trace, id) + if events != [] && events[0].run == id then events else []
  {
    if events == [] {
      assert trace + events == trace;
    } else {
      assert (trace + events)[..|trace|] == trace;
    }
  }

  // ---------------------------------------------------------------- a step sees only its own key

  /** The two effects differ at most in records the run does not look at. */
  predicate SameFor(key: Key, a: Effect, b: Effect) {
    a.run == b.run && a.events == b.events && Lookup(a.records, key) == Lookup(b.records, key)
  }

  lemma CheckIsLocal(id: RunId, s: State, key: Key, r1: Records, r2: Records)
    requires RunKey(s).Some? ==> RunKey(s) == Some(key)
    requires Lookup(r1, key) == Lookup(r2, key)
    ensures SameFor(key, CheckIdempotencyStep(id, s, r1), CheckIdempotencyStep(id, s, r2))
  {
    hide FailedAt;
  }

  lemma CallsAreLocal(id: RunId, s: State, a: Answers, key: Key, r1: Records, r2: Records)
    requires Lookup(r1, key) == Lookup(r2, key)
    ensures SameFor(key, SignStep(id, s, a, r1), SignStep(id, s, a, r2))
    ensures SameFor(key, BroadcastStep(id, s, a, r1), BroadcastStep(id, s, a, r2))
  {
  }

  lemma MonitorIsLocal(id: RunId, s: State, a: Answers, key: Key, r1: Records, r2: Records)
    requires Lookup(r1, key) == Lookup(r2, key)
    ensures SameFor(key, MonitorStep(id, s, a, r1), MonitorStep(id, s, a, r2))
  {
    hide FailedAt, ResultFromReceipt;
  }

  lemma FinalStepsAreLocal(id: RunId, s: State, stage: string, message: string, next: Node, result: ExecutionResult,
                           key: Key, r1: Records, r2: Records)
    requires RunKey(s).Some? ==> RunKey(s) == Some(key)
    requires Lookup(r1, key) == Lookup(r2, key)
    ensures SameFor(key, ReleaseStep(id, s, stage, message, next, r1), ReleaseStep(id, s, stage, message, next, r2))
    ensures SameFor(key, CompleteStep(id, s, result, r1), CompleteStep(id, s, result, r2))
    ensures SameFor(key, RecordFailureStep(id, s, result, r1), RecordFailureStep(id, s, result, r2))
  {
    hide FailedAt;
  }

  lemma AdvanceIsLocal(config: PolicyConfig, id: RunId, run: Run, a: Answers, key: Key, r1: Records, r2: Records)
    requires CarriesOnly(run, key) && Lookup(r1, key) == Lookup(r2, key)
    ensures SameFor(key, Advance(config, id, run, r1, a), Advance(config, id, run, r2, a))
  {
    KeyIsOwn(run, key);
    hide CarriesOnly, EvaluatePolicyNode, RequestApprovalNode, ResolveNonceNode, PopulateGasNode, SimulateNode, RejectNode,
      FailedAt, CheckIdempotencyStep, SignStep, ReleaseStep, BroadcastStep, MonitorStep, CompleteStep, RecordFailureStep,
      Lookup;
    var s := run.state;
    var some := ResultFromState(s, Pending, None);
    match run.at
    case CheckIdempotency => CheckIsLocal(id, s, key, r1, r2);
    case SignTransaction => CallsAreLocal(id, s, a, key, r1, r2);
    case ReleaseAfterSign(m) =>
      FinalStepsAreLocal(id, s, "sign_transaction", m, BroadcastTransaction, some, key, r1, r2);
    case BroadcastTransaction => CallsAreLocal(id, s, a, key, r1, r2);
    case ReleaseAfterBroadcast(m) =>
      FinalStepsAreLocal(id, s, "broadcast_transaction", m, MonitorReceipt, some, key, r1, r2);
    case MonitorReceipt => MonitorIsLocal(id, s, a, key, r1, r2);
    case RecordReceipt(outcome) => FinalStepsAreLocal(id, s, "", "", Finished, outcome, key, r1, r2);
    case RecordFailure(outcome) => FinalStepsAreLocal(id, s, "", "", Finished, outcome, key, r1, r2);
    case _ =>
  }

  lemma KeyIsOwn(run: Run, key: Key)
    requires CarriesOnly(run, key)
    ensures RunKey(run.state).Some? ==> RunKey(run.state) == Some(key)
  {
    if RunKey(run.state).Some? {
      assert RunKey(run.state).value != key ==> Names(run, RunKey(run.state).value);
    }
  }

  lemma StepCarriesOnly(config: PolicyConfig, id: RunId, run: Run, records: Records, a: Answers, key: Key)
    requires CarriesOnly(run, key)
    ensures CarriesOnly(Advance(config, id, run, records, a).run, key)
  {
    hide Advance, Names;
    forall other: Key | other != key
      ensures !Names(Advance(config, id, run, records, a).run, other)
    {
      StepNamesNoNewKey(config, id, run, records, a, other);
    }
  }

  // ---------------------------------------------------------------- isolation

  /** The run is where it would be had it been alone since `w`. */
  ghost predicate AsAlone(config: PolicyConfig, w: World, after: World, id: RunId, key: Key, answers: seq<Answers>)
    requires id in w.runs
  {
    var alone := AloneAfter(config, id, w.runs[id], w.records, answers);
    && id in after.runs && after.runs[id] == alone.run && CarriesOnly(alone.run, key)
    && Lookup(after.records, key) == Lookup(alone.records, key)
    && CallsOf(after.trace, id) == CallsOf(w.trace, id) + alone.events
  }

  lemma AloneUnfolds(config: PolicyConfig, id: RunId, start: Run, records: Records, answers: seq<Answers>, a: Answers)
    ensures var before := AloneAfter(config, id, start, records, answers);
      var e := Advance(config, id, before.run, before.records, a);
      AloneAfter(config, id, start, records, answers + [a]) == Effect(e.run, e.records, before.events + e.events)
  {
    hide Advance;
    assert (answers + [a])[..|answers|] == answers;
  }

  /** One's own step, and a step of another run that leaves one's record alone. */
  lemma StepIsAsAlone(config: PolicyConfig, w: World, mid: World, action: Action, id: RunId, key: Key, answers: seq<Answers>)
    requires id in w.runs && AsAlone(config, w, mid, id, key, answers) && action.run in mid.runs
    requires action.run != id ==>
      Lookup(Advance(config, action.run, mid.runs[action.run], mid.records, action.answers).records, key)
      == Lookup(mid.records, key)
    ensures AsAlone(config, w, Step(config, mid, action), id, key,
                    if action.run == id then answers + [action.answers] else answers)
  {
    hide Advance, AloneAfter, CarriesOnly, Lookup;
    var e := Advance(config, action.run, mid.runs[action.run], mid.records, action.answers);
    EventsAreOwn(config, action.run, mid.runs[action.run], mid.records, action.answers);
    CallsAfter(mid.trace, e.events, id);
    if action.run == id {
      var alone := AloneAfter(config, id, w.runs[id], w.records, answers);
      AdvanceIsLocal(config, id, alone.run, action.answers, key, mid.records, alone.records);
      StepCarriesOnly(config, id, alone.run, alone.records, action.answers, key);
      AloneUnfolds(config, id, w.runs[id], w.records, answers, action.answers);
      assert CallsOf(w.trace, id) + (alone.events + e.events) == CallsOf(w.trace, id) + alone.events + e.events;
    }
  }

  /** No other run carries the key. */
  ghost predicate NobodyElse(w: World, id: RunId, key: Key) {
    forall other | other in w.runs && other != id :: !Names(w.runs[other], key)
  }

  /** A run whose key no other run carries goes exactly as if it were alone, over every
      interleaving: its state, its record and its calls depend on its own answers only. */
  lemma {:induction false} RunsAreIsolated(config: PolicyConfig, w: World, actions: seq<Action>, id: RunId, key: Key)
    requires id in w.runs && CarriesOnly(w.runs[id], key) && NobodyElse(w, id, key)
    ensures var after := Execute(config, w, actions);
      AsAlone(config, w, after, id, key, AnswersOf(actions, id)) && NobodyElse(after, id, key)
  {
    if actions == [] {
      assert AnswersOf(actions, id) == [];
    } else {
      hide Advance, AloneAfter, CarriesOnly, Names, Lookup, AsAlone;
      var before, last := actions[..|actions| - 1], actions[|actions| - 1];
      RunsAreIsolated(config, w, before, id, key);
      var mid := Execute(config, w, before);
      if last.run in mid.runs {
        if last.run != id {
          StepNamesNoNewKey(config, last.run, mid.runs[last.run], mid.records, last.answers, key);
        }
        StepIsAsAlone(config, w, mid, last, id, key, AnswersOf(before, id));
      } else {
        AsAloneMeansPresent(config, w, mid, id, key, AnswersOf(before, id));
      }
    }
  }

  lemma AsAloneMeansPresent(config: PolicyConfig, w: World, after: World, id: RunId, key: Key, answers: seq<Answers>)
    requires id in w.runs && AsAlone(config, w, after, id, key, answers)
    ensures id in after.runs
  {
  }

  /** Once the key is completed even runs that carry it too cannot disturb: nobody changes the
      record any more. */
  lemma {:induction false} RunsAreIsolatedOnceCompleted(config: PolicyConfig, w: World, actions: seq<Action>, id: RunId,
                                                        key: Key, result: ExecutionResult)
    requires WorldInv(w) && Lookup(w.records, key) == Some(Completed(result))
    requires id in w.runs && CarriesOnly(w.runs[id], key)
    ensures AsAlone(config, w, Execute(config, w, actions), id, key, AnswersOf(actions, id))
  {
    if actions == [] {
      assert AnswersOf(actions, id) == [];
    } else {
      hide Advance, AloneAfter, CarriesOnly, Names, Lookup, AsAlone, RunsInv, KeyInv;
      var before, last := actions[..|actions| - 1], actions[|actions| - 1];
      RunsAreIsolatedOnceCompleted(config, w, before, id, key, result);
      CompletedIsAbsorbing(config, w, before, key, result);
      ExecuteKeepsInv(config, w, before);
      var mid := Execute(config, w, before);
      if last.run in mid.runs {
        StepKeepsCompleted(config, mid, last, key, result);
        StepIsAsAlone(config, w, mid, last, id, key, AnswersOf(before, id));
      } else {
        AsAloneMeansPresent(config, w, mid, id, key, AnswersOf(before, id));
      }
    }
  }

  // ---------------------------------------------------------------- the gate

  /** At or before the idempotency gate. */
  predicate UpToTheGate(n: Node) {
    Rank(n) >= 7
  }

  lemma EarlyStepLeavesRecords(config: PolicyConfig, id: RunId, run: Run, records: Records, a: Answers)
    requires UpToTheGate(run.at)
    ensures var e := Advance(config, id, run, records, a);
      UpToTheGate(e.run.at) ==> e.records == records
  {
    hide EvaluatePolicyNode, RequestApprovalNode, ResolveNonceNode, PopulateGasNode, SimulateNode, FailedAt, AfterReserve;
  }

  lemma {:induction false} AloneUpToTheGate(config: PolicyConfig, id: RunId, start: Run, records: Records,
                                            answers: seq<Answers>)
    requires UpToTheGate(AloneAfter(config, id, start, records, answers).run.at)
    ensures AloneAfter(config, id, start, records, answers).records == records
  {
    if answers != [] {
      hide Advance;
      var shorter, last := answers[..|answers| - 1], answers[|answers| - 1];
      var before := AloneAfter(config, id, start, records, shorter);
      if before.run.at == Finished || before.run.at == Crashed {
        StoppedStays(config, id, before.run, before.records, last);
      } else {
        AdvanceWalksTheGraph(config, id, before.run, before.records, last);
      }
      AloneUpToTheGate(config, id, start, records, shorter);
      EarlyStepLeavesRecords(config, id, before.run, before.records, last);
    }
  }

  // ---------------------------------------------------------------- the key is never lost

  /** The run's transactions have a key. */
  predicate HasKeys(s: State) {
    && (s.prepared.Some? ==> s.prepared.value.idempotencyKey.Some?)
    && (s.executable.Some? ==> RunKey(s).Some?)
  }

  predicate SameTransactions(a: State, b: State) {
    a.prepared == b.prepared && a.executable == b.executable
  }

  lemma StoreStepsKeepTransactions(id: RunId, s: State, a: Answers, records: Records)
    ensures SameTransactions(CheckIdempotencyStep(id, s, records).run.state, s)
    ensures SameTransactions(SignStep(id, s, a, records).run.state, s)
    ensures SameTransactions(BroadcastStep(id, s, a, records).run.state, s)
  {
    hide FailedAt, AfterReserve;
  }

  lemma LastStepsKeepTransactions(id: RunId, s: State, a: Answers, stage: string, message: string, next: Node,
                                  result: ExecutionResult, records: Records)
    ensures SameTransactions(MonitorStep(id, s, a, records).run.state, s)
    ensures SameTransactions(ReleaseStep(id, s, stage, message, next, records).run.state, s)
    ensures SameTransactions(CompleteStep(id, s, result, records).run.state, s)
    ensures SameTransactions(RecordFailureStep(id, s, result, records).run.state, s)
  {
    hide FailedAt, ResultFromReceipt, AfterRelease, AfterComplete, Strip;
  }

  lemma StepKeepsKeyed(config: PolicyConfig, id: RunId, run: Run, records: Records, a: Answers)
    requires HasKeys(run.state)
    ensures HasKeys(Advance(config, id, run, records, a).run.state)
  {
    hide EvaluatePolicyNode, RequestApprovalNode, ResolveNonceNode, PopulateGasNode, SimulateNode, RejectNode, FailedAt,
      CheckIdempotencyStep, SignStep, ReleaseStep, BroadcastStep, MonitorStep, CompleteStep, RecordFailureStep;
    var s := run.state;
    var some := ResultFromState(s, Pending, None);
    match run.at
    case ResolveNonce => EarlyNodesKeepKeyed(s, a);
    case PopulateGas => EarlyNodesKeepKeyed(s, a);
    case SimulateTransaction => GatesSpare(config, s, a);
    case EvaluatePolicy => GatesSpare(config, s, a);
    case RequestApproval => GatesSpare(config, s, a);
    case RejectTransaction => GatesSpare(config, s, a);
    case CheckIdempotency => StoreStepsKeepTransactions(id, s, a, records);
    case SignTransaction => StoreStepsKeepTransactions(id, s, a, records);
    case BroadcastTransaction => StoreStepsKeepTransactions(id, s, a, records);
    case MonitorReceipt => LastStepsKeepTransactions(id, s, a, "", "", Finished, some, records);
    case ReleaseAfterSign(m) =>
      LastStepsKeepTransactions(id, s, a, "sign_transaction", m, BroadcastTransaction, some, records);
    case ReleaseAfterBroadcast(m) =>
      LastStepsKeepTransactions(id, s, a, "broadcast_transaction", m, MonitorReceipt, some, records);
    case RecordReceipt(outcome) => LastStepsKeepTransactions(id, s, a, "", "", Finished, outcome, records);
    case RecordFailure(outcome) => LastStepsKeepTransactions(id, s, a, "", "", Finished, outcome, records);
    case _ =>
  }

  lemma EarlyNodesKeepKeyed(s: State, a: Answers)
    requires HasKeys(s)
    ensures HasKeys(ResolveNonceNode(s, a)) && HasKeys(PopulateGasNode(s, a))
  {
  }

  lemma {:induction false} AloneStaysKeyed(config: PolicyConfig, id: RunId, start: Run, records: Records,
                                           answers: seq<Answers>)
    requires HasKeys(start.state)
    ensures HasKeys(AloneAfter(config, id, start, records, answers).run.state)
  {
    if answers != [] {
      hide Advance, HasKeys;
      var shorter := answers[..|answers| - 1];
      AloneStaysKeyed(config, id, start, records, shorter);
      var before := AloneAfter(config, id, start, records, shorter);
      StepKeepsKeyed(config, id, before.run, before.records, answers[|answers| - 1]);
    }
  }

  /** While the only run that carries a key has not passed the gate, the key keeps its record,
      whatever becomes of all other runs; if it was free, that run reserves it there. */
  lemma KeyWaitsForItsRun(config: PolicyConfig, w: World, actions: seq<Action>, id: RunId, key: Key, a: Answers)
    requires Initial(w) && id in w.runs && HasKeys(w.runs[id].state)
    requires CarriesOnly(w.runs[id], key) && NobodyElse(w, id, key)
    requires var after := Execute(config, w, actions);
      id in after.runs ==> UpToTheGate(after.runs[id].at)
    ensures var after := Execute(config, w, actions);
      && id in after.runs && Lookup(after.records, key).None?
      && (after.runs[id].at == CheckIdempotency ==>
            var e := Advance(config, id, after.runs[id], after.records, a);
            e.events == [Reserved(id, key)] && e.run.at == SignTransaction)
  {
    var answers := AnswersOf(actions, id);
    RunsAreIsolated(config, w, actions, id, key);
    AloneUpToTheGate(config, id, w.runs[id], w.records, answers);
    AloneStaysKeyed(config, id, w.runs[id], w.records, answers);
    Reachable(config, w, actions);
    var after := Execute(config, w, actions);
    assert RunInv(after.runs[id]);
    KeyIsOwn(after.runs[id], key);
    hide Execute, AloneAfter, CarriesOnly, NobodyElse, Names, KeyInv, Tells;
  }
}
