/** How runs end: every run stops, its result is written once, and it carries a hash exactly
    when this run submitted something. */
module PipelineResults {
  import opened Outcomes
  import opened Text
  import opened Calldata
  import opened Transactions
  import opened Policy
  import opened IdempotencyStore
  import opened Pipeline
  import opened Ownership
  import opened Stories
  import opened PipelineSafety
  import opened PipelineTheorems
  import opened PipelineGraph

  // ---------------------------------------------------------------- written once

  lemma StepKeepsResult(config: PolicyConfig, id: RunId, run: Run, records: Records, a: Answers)
    requires RunInv(run) && run.state.result.Some?
    ensures Advance(config, id, run, records, a).run.state.result == run.state.result
  {
    hide EvaluatePolicyNode, RequestApprovalNode, ResolveNonceNode, PopulateGasNode, SimulateNode, PassedPolicy;
  }

  /** No step of any run overwrites a result: whatever is scheduled next, it stays. */
  lemma {:induction false} ResultIsWrittenOnce(config: PolicyConfig, w: World, actions: seq<Action>, id: RunId)
    requires WorldInv(w) && id in w.runs && w.runs[id].state.result.Some?
    ensures var after := Execute(config, w, actions);
      id in after.runs && after.runs[id].state.result == w.runs[id].state.result
  {
    if actions != [] {
      hide Advance, RunInv, Tells, KeyInv;
      var before, last := actions[..|actions| - 1], actions[|actions| - 1];
      ResultIsWrittenOnce(config, w, before, id);
      ExecuteKeepsInv(config, w, before);
      var mid := Execute(config, w, before);
      StepKeepsResult(config, id, mid.runs[id], mid.records, last.answers);
    }
  }

  // ---------------------------------------------------------------- every run stops

  function Turns(actions: seq<Action>, id: RunId): nat {
    if actions == [] then 0
    else Turns(actions[..|actions| - 1], id) + if actions[|actions| - 1].run == id then 1 else 0
  }

  lemma {:induction false} TurnsDescend(config: PolicyConfig, w: World, actions: seq<Action>, id: RunId)
    requires id in w.runs
    ensures var after := Execute(config, w, actions);
      && id in after.runs
      && (Rank(after.runs[id].at) + Turns(actions, id) <= Rank(w.runs[id].at) || Rank(after.runs[id].at) == 0)
  {
    if actions != [] {
      hide Advance;
      var before, last := actions[..|actions| - 1], actions[|actions| - 1];
      TurnsDescend(config, w, before, id);
      var mid := Execute(config, w, before);
      if last.run == id {
        if mid.runs[id].at == Finished || mid.runs[id].at == Crashed {
          StoppedStays(config, id, mid.runs[id], mid.records, last.answers);
        } else {
          AdvanceWalksTheGraph(config, id, mid.runs[id], mid.records, last.answers);
        }
      }
    }
  }

  lemma StoppedStays(config: PolicyConfig, id: RunId, run: Run, records: Records, a: Answers)
    requires run.at == Finished || run.at == Crashed
    ensures Advance(config, id, run, records, a) == Effect(run, records, [])
  {
  }

  /** However the scheduler interleaves the runs, a run that has had twelve turns has stopped,
      and it has stopped with a result unless it crashed. */
  lemma EveryRunTerminates(config: PolicyConfig, w: World, actions: seq<Action>, id: RunId)
    requires Initial(w) && id in w.runs && Turns(actions, id) >= 12
    ensures var after := Execute(config, w, actions);
      && id in after.runs
      && (after.runs[id].at == Crashed || (after.runs[id].at == Finished && after.runs[id].state.result.Some?))
  {
    hide Execute, Turns, KeyInv, Tells, Advance;
    TurnsDescend(config, w, actions, id);
    Reachable(config, w, actions);
    assert RunInv(Execute(config, w, actions).runs[id]);
  }

  // ---------------------------------------------------------------- hash exactly when submitted

  lemma {:induction false} SubmissionShows(trace: seq<Event>, id: RunId)
    requires HasSubmitted(trace, id)
    ensures var story := StoryOf(trace, id);
      story.Submitting? || story.Answered? || story.Finalized? || story.Broken?
  {
    var i :| 0 <= i < |trace| && trace[i].run == id && trace[i].Submitted?;
    SubmittedStory(trace, id, i);
  }

  /** A finished run that did not replay carries a hash exactly when its own broadcast
      returned one. */
  lemma HashIffSubmitted(config: PolicyConfig, w: World, actions: seq<Action>, id: RunId)
    requires Initial(w) && id in Execute(config, w, actions).runs
    requires Execute(config, w, actions).runs[id].at == Finished
    ensures var after := Execute(config, w, actions);
      var result := after.runs[id].state.result;
      && result.Some?
      && ((exists key, stored :: Replayed(id, key, stored) in after.trace && result == Some(stored))
          || (result.value.txHash.Some? <==> HasSubmitted(after.trace, id)))
  {
    hide Execute, Advance, KeyInv;
    Reachable(config, w, actions);
    var after := Execute(config, w, actions);
    var story := StoryOf(after.trace, id);
    assert RunInv(after.runs[id]) && Tells(story, after.runs[id]);
    StoryOnTrace(after.trace, id);
    if story.Finalized? {
      FinalizedHasSubmitted(after.trace, id);
    } else if HasSubmitted(after.trace, id) {
      SubmissionShows(after.trace, id);
    }
  }

  ghost predicate CalledSigner(trace: seq<Event>, id: RunId) {
    exists e :: e in trace && e.run == id && e.SignerCalled?
  }

  /** What a caller may conclude from the status of a finished run that did not replay:
      rejected or denied exactly when the signer was never called; otherwise failed without a
      hash exactly when nothing was submitted. */
  lemma StatusTellsWhatHappened(config: PolicyConfig, w: World, actions: seq<Action>, id: RunId)
    requires Initial(w) && id in Execute(config, w, actions).runs
    requires var after := Execute(config, w, actions);
      after.runs[id].at == Finished && !StoryOf(after.trace, id).Replay?
    ensures var after := Execute(config, w, actions);
      var result := after.runs[id].state.result;
      && result.Some?
      && (result.value.status == Rejected || result.value.status == ApprovalDenied <==> !CalledSigner(after.trace, id))
      && (result.value.status == Failed && result.value.txHash.None? <==>
            CalledSigner(after.trace, id) && !HasSubmitted(after.trace, id))
  {
    hide Execute, Advance, KeyInv;
    Reachable(config, w, actions);
    var after := Execute(config, w, actions);
    var story := StoryOf(after.trace, id);
    assert RunInv(after.runs[id]) && Tells(story, after.runs[id]);
    if Unsigned(story) {
      UnsignedRunsAreSilent(after.trace, id);
    } else {
      SignedStories(after.trace, id);
    }
    if story.Finalized? {
      FinalizedHasSubmitted(after.trace, id);
    } else if HasSubmitted(after.trace, id) {
      SubmissionShows(after.trace, id);
    }
  }

  lemma {:induction false} SignedStories(trace: seq<Event>, id: RunId)
    requires var story := StoryOf(trace, id);
      story.Called? || story.Submitting? || story.Answered? || story.GaveUp? || story.Finalized?
    ensures CalledSigner(trace, id)
  {
    var before, last := trace[..|trace| - 1], trace[|trace| - 1];
    if last.run == id && last.SignerCalled? {
      assert last in trace;
    } else {
      SignedStories(before, id);
      var e :| e in before && e.run == id && e.SignerCalled?;
      assert e in trace;
    }
  }

  // ---------------------------------------------------------------- keys nobody names

  predicate Names(run: Run, key: Key) {
    || (run.state.prepared.Some? && run.state.prepared.value.idempotencyKey == Some(key))
    || RunKey(run.state) == Some(key)
  }

  /** The step carries no new key, and leaves the record of any key it does not carry. */
  predicate Spares(run: Run, records: Records, e: Effect, key: Key) {
    !Names(run, key) ==> !Names(e.run, key) && Lookup(e.records, key) == Lookup(records, key)
  }

  lemma EarlyNodesSpare(config: PolicyConfig, s: State, a: Answers, key: Key, at: Node)
    requires !Names(Run(at, s), key)
    ensures !Names(Run(at, ResolveNonceNode(s, a)), key)
    ensures !Names(Run(at, PopulateGasNode(s, a)), key)
  {
  }

  lemma GatesSpare(config: PolicyConfig, s: State, a: Answers)
    ensures SimulateNode(s, a).prepared == s.prepared && SimulateNode(s, a).executable == s.executable
    ensures EvaluatePolicyNode(config, s).prepared == s.prepared && EvaluatePolicyNode(config, s).executable == s.executable
    ensures RequestApprovalNode(s, a).prepared == s.prepared && RequestApprovalNode(s, a).executable == s.executable
    ensures RejectNode(s).prepared == s.prepared && RejectNode(s).executable == s.executable
  {
    hide Evaluate, FailedAt, ResultFromState;
  }

  lemma CheckSpares(id: RunId, run: Run, records: Records, key: Key)
    ensures Spares(run, records, CheckIdempotencyStep(id, run.state, records), key)
  {
    hide FailedAt;
  }

  lemma SignAndBroadcastSpare(id: RunId, run: Run, a: Answers, records: Records, key: Key)
    ensures Spares(run, records, SignStep(id, run.state, a, records), key)
    ensures Spares(run, records, BroadcastStep(id, run.state, a, records), key)
  {
  }

  lemma MonitorSpares(id: RunId, run: Run, a: Answers, records: Records, key: Key)
    ensures Spares(run, records, MonitorStep(id, run.state, a, records), key)
  {
    hide FailedAt, ResultFromReceipt;
  }

  lemma FinalStepsSpare(id: RunId, run: Run, stage: string, message: string, next: Node, result: ExecutionResult,
                        records: Records, key: Key)
    ensures Spares(run, records, ReleaseStep(id, run.state, stage, message, next, records), key)
    ensures Spares(run, records, CompleteStep(id, run.state, result, records), key)
    ensures Spares(run, records, RecordFailureStep(id, run.state, result, records), key)
  {
    hide FailedAt, Strip;
  }

  lemma StepNamesNoNewKey(config: PolicyConfig, id: RunId, run: Run, records: Records, a: Answers, key: Key)
    requires !Names(run, key)
    ensures var e := Advance(config, id, run, records, a);
      !Names(e.run, key) && Lookup(e.records, key) == Lookup(records, key)
  {
    hide EvaluatePolicyNode, RequestApprovalNode, ResolveNonceNode, PopulateGasNode, SimulateNode, RejectNode, FailedAt,
      CheckIdempotencyStep, SignStep, ReleaseStep, BroadcastStep, MonitorStep, CompleteStep, RecordFailureStep, Lookup;
    var s := run.state;
    match run.at
    case ResolveNonce => EarlyNodesSpare(config, s, a, key, run.at);
    case PopulateGas => EarlyNodesSpare(config, s, a, key, run.at);
    case SimulateTransaction => GatesSpare(config, s, a);
    case EvaluatePolicy => GatesSpare(config, s, a);
    case RequestApproval => GatesSpare(config, s, a);
    case RejectTransaction => GatesSpare(config, s, a);
    case CheckIdempotency => CheckSpares(id, run, records, key);
    case SignTransaction => SignAndBroadcastSpare(id, run, a, records, key);
    case BroadcastTransaction => SignAndBroadcastSpare(id, run, a, records, key);
    case MonitorReceipt => MonitorSpares(id, run, a, records, key);
    case ReleaseAfterSign(m) =>
      FinalStepsSpare(id, run, "sign_transaction", m, BroadcastTransaction, ResultFromState(s, Pending, None), records, key);
    case ReleaseAfterBroadcast(m) =>
      FinalStepsSpare(id, run, "broadcast_transaction", m, MonitorReceipt, ResultFromState(s, Pending, None), records, key);
    case RecordReceipt(outcome) => FinalStepsSpare(id, run, "", "", Finished, outcome, records, key);
    case RecordFailure(outcome) => FinalStepsSpare(id, run, "", "", Finished, outcome, records, key);
    case _ =>
  }

  /** A key that no run carries keeps its record, whatever the runs do under other keys: an
      approval sent under one key leaves the key of the swap it prepares unreserved. */
  lemma {:induction false} UnnamedKeyIsUntouched(config: PolicyConfig, w: World, actions: seq<Action>, key: Key)
    requires forall id | id in w.runs :: !Names(w.runs[id], key)
    ensures var after := Execute(config, w, actions);
      && Lookup(after.records, key) == Lookup(w.records, key)
      && (forall id | id in after.runs :: !Names(after.runs[id], key))
  {
    if actions != [] {
      hide Advance, Names;
      var before, last := actions[..|actions| - 1], actions[|actions| - 1];
      UnnamedKeyIsUntouched(config, w, before, key);
      var mid := Execute(config, w, before);
      if last.run in mid.runs {
        StepNamesNoNewKey(config, last.run, mid.runs[last.run], mid.records, last.answers, key);
      }
    }
  }

  // ---------------------------------------------------------------- approval by request metadata

  /** `str(value)`, except that the text of an object is not spelled out. */
  function PythonText(value: Json): string {
    match value
    case Null => "None"
    case Flag(b) => if b then "True" else "False"
    case Number(n) => if n >= 0 then Str(n) else "-" + Str(-n)
    case Text(s) => s
    case Object(_) => "{...}"
  }

  /** `str(value or fallback)`. */
  function TextOr(value: Json, fallback: string): string {
    if value == Null || value == Flag(false) || value == Number(0) || value == Text("") || value == Object(map[])
    then fallback else PythonText(value)
  }

  /** `RequestMetadataTransactionApprover.request_approval`. */
  function MetadataApproval(request: ApprovalRequest): ApprovalResult {
    match Get(request.metadata, "approval_response")
    case Object(response) =>
      var status := Lower(Strip(if "status" in response then PythonText(response["status"]) else ""));
      var key := Get(response, "idempotency_key");
      if status == "denied" then ApprovalResult(Denied, TextOr(Get(response, "reason"), "Approval denied."))
      else if status != "approved" then RequiredApproval(request)
      else if key != Null && PythonText(key) != request.idempotencyKey then
        ApprovalResult(Denied, "Approval idempotency key does not match transaction.")
      else ApprovalResult(Approved, TextOr(Get(response, "reason"), "Approved via request metadata."))
    case _ => RequiredApproval(request)
  }

  function RequiredApproval(request: ApprovalRequest): ApprovalResult {
    ApprovalResult(Required, "Human approval is required before signing " + request.idempotencyKey + ".")
  }

  /** The metadata carries an explicit approval that names no other key. */
  predicate Grants(metadata: Metadata, key: Key) {
    var response := Get(metadata, "approval_response");
    && response.Object? && "status" in response.fields && response.fields["status"].Text?
    && Lower(Strip(response.fields["status"].text)) == "approved"
    && NamesKey(Get(response.fields, "idempotency_key"), key)
  }

  /** The value is this key as Python writes it, or there is none. */
  predicate NamesKey(value: Json, key: Key) {
    match value
    case Null => true
    case Text(s) => s == key
    case Number(n) => if n >= 0 then key == Str(n) else key == "-" + Str(-n)
    case Flag(b) => key == (if b then "True" else "False")
    case Object(_) => PythonText(value) == key
  }

  /** Whenever the scheduled run asks for approval, the metadata approver is the one that
      answers. */
  predicate AskedOfMetadata(w: World, action: Action) {
    action.run in w.runs && w.runs[action.run].at == RequestApproval ==>
      var s := w.runs[action.run].state;
      s.executable.Some? && BuildApprovalRequest(s.executable.value).Ok? ==>
        action.answers.approval == Ok(MetadataApproval(BuildApprovalRequest(s.executable.value).value))
  }

  predicate AllAskedOfMetadata(config: PolicyConfig, w: World, actions: seq<Action>)
    decreases |actions|
  {
    actions != [] ==>
      var before := actions[..|actions| - 1];
      AllAskedOfMetadata(config, w, before) && AskedOfMetadata(Execute(config, w, before), actions[|actions| - 1])
  }

  ghost predicate AllGranted(trace: seq<Event>) {
    forall e | e in trace && e.Asked? && e.reply.Ok? && e.reply.value.status == Approved ::
      Grants(e.request.metadata, e.request.idempotencyKey)
  }

  /** The metadata carries an explicit answer with this word. */
  predicate SaysStatus(metadata: Metadata, word: string) {
    var response := Get(metadata, "approval_response");
    && response.Object? && "status" in response.fields && response.fields["status"].Text?
    && Lower(Strip(response.fields["status"].text)) == word
  }

  /** Approved exactly when the metadata grants it for this key; denied exactly when it says so,
      or grants it for another key; otherwise the approval is still required. */
  lemma MetadataApprovalGrants(request: ApprovalRequest)
    ensures var status, granted := MetadataApproval(request).status, Grants(request.metadata, request.idempotencyKey);
      && (status == Approved <==> granted)
      && (status == Denied <==>
            SaysStatus(request.metadata, "denied") || (SaysStatus(request.metadata, "approved") && !granted))
  {
    var response := Get(request.metadata, "approval_response");
    if response.Object? && "status" in response.fields {
      OnlyTextIsApproved(response.fields["status"]);
    }
    assert "denied"[0] == 'd' && "approved"[0] == 'a';
    assert Strip("") == "";
  }

  /** A reason that is given is passed on; without one there is a standing one. */
  lemma ReasonIsPassedOn(request: ApprovalRequest, reason: string)
    requires Grants(request.metadata, request.idempotencyKey) || SaysStatus(request.metadata, "denied")
    ensures var given := Get(Get(request.metadata, "approval_response").fields, "reason");
      && (given == Text(reason) && reason != "" ==> MetadataApproval(request).reason == reason)
      && (given == Null || given == Text("") ==>
            MetadataApproval(request).reason
            == if SaysStatus(request.metadata, "denied") then "Approval denied." else "Approved via request metadata.")
  {
    assert "denied"[0] == 'd' && "approved"[0] == 'a';
  }

  lemma OnlyTextIsApproved(value: Json)
    ensures var word := Lower(Strip(PythonText(value))); word == "approved" || word == "denied" ==> value.Text?
  {
    if !value.Text? {
      var text := PythonText(value);
      assert value.Number? && value.number >= 0 ==> IsDigit(text[0]);
      FirstCharStays(text);
      assert Lower(Strip(text))[0] == LowerChar(text[0]) != 'a';
    }
  }

  lemma FirstCharStays(s: string)
    requires s != "" && !IsSpace(s[0])
    ensures Strip(s) != "" && Strip(s)[0] == s[0]
  {
    StripRightKeepsHead(s);
  }

  lemma {:induction false} StripRightKeepsHead(s: string)
    requires s != "" && !IsSpace(s[0])
    ensures StripRight(s) != "" && StripRight(s)[0] == s[0]
  {
    if IsSpace(s[|s| - 1]) {
      StripRightKeepsHead(s[..|s| - 1]);
    }
  }

  lemma StepGrants(config: PolicyConfig, w: World, action: Action)
    requires RunsInv(w) && AllGranted(w.trace) && AskedOfMetadata(w, action)
    ensures AllGranted(Step(config, w, action).trace)
  {
    hide Advance, RunInv, Tells, Grants;
    if action.run in w.runs {
      var run := w.runs[action.run];
      var e := Advance(config, action.run, run, w.records, action.answers);
      EventsAreOwn(config, action.run, run, w.records, action.answers);
      if e.events != [] && e.events[0].Asked? {
        var request := e.events[0].request;
        assert e.events == [Asked(action.run, request, e.events[0].reply)];
        AskedAtItsNode(config, action.run, run, w.records, action.answers, action.run, request, e.events[0].reply);
        MetadataApprovalGrants(request);
      }
    }
  }

  lemma {:induction false} MetadataApprovalsAreGranted(config: PolicyConfig, w: World, actions: seq<Action>)
    requires WorldInv(w) && AllGranted(w.trace) && AllAskedOfMetadata(config, w, actions)
    ensures AllGranted(Execute(config, w, actions).trace)
  {
    if actions != [] {
      hide Step, RunsInv, KeyInv, AllGranted;
      var before, last := actions[..|actions| - 1], actions[|actions| - 1];
      MetadataApprovalsAreGranted(config, w, before);
      ExecuteKeepsInv(config, w, before);
      StepGrants(config, Execute(config, w, before), last);
    }
  }

  /** With the metadata approver, a value-moving transaction is signed only if the metadata it
      carries contains an explicit approval that names no key but its own. */
  lemma SignedMeansGranted(config: PolicyConfig, w: World, actions: seq<Action>, action: Action, tx: ExecutableTransaction,
                           signature: Try<HexData>)
    requires Initial(w) && AllAskedOfMetadata(config, w, actions) && action.run in Execute(config, w, actions).runs
    requires var mid := Execute(config, w, actions);
      Advance(config, action.run, mid.runs[action.run], mid.records, action.answers).events
      == [SignerCalled(action.run, tx, signature)]
    requires tx.IsValueMoving()
    ensures tx.idempotencyKey.Some? && Grants(tx.metadata, tx.idempotencyKey.value)
  {
    hide Advance, Execute, Grants, KeyInv, StoryOf;
    InitialInv(w);
    Reachable(config, w, actions);
    var mid := Execute(config, w, actions);
    SignerCalledAtSign(config, action.run, mid.runs[action.run], mid.records, action.answers, tx, signature);
    assert Tells(StoryOf(mid.trace, action.run), mid.runs[action.run]);
    SignedIsGranted(mid.trace, action.run);
    MetadataApprovalsAreGranted(config, w, actions);
  }

  /** A transaction that moves value is keyed only after it was agreed to. */
  lemma {:induction false} SignedIsGranted(trace: seq<Event>, id: RunId)
    requires StoryOf(trace, id).Keyed?
    ensures var story := StoryOf(trace, id);
      ClearedOn(trace, id, story.clearance) && MaySign(story.clearance)
      && story.clearance.tx.idempotencyKey == Some(story.key)
  {
    ClearanceOnTrace(trace, id);
    var before, last := trace[..|trace| - 1], trace[|trace| - 1];
    if last.run != id {
      SignedIsGranted(before, id);
    }
  }
}
