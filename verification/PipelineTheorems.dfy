/** The promises of the transaction pipeline, over every run and every interleaving. */
module PipelineTheorems {
  import opened Outcomes
  import opened Calldata
  import opened Transactions
  import opened Policy
  import opened IdempotencyStore
  import opened Pipeline
  import opened Ownership
  import opened Stories
  import opened PipelineSafety

  lemma Reachable(config: PolicyConfig, w: World, actions: seq<Action>)
    requires Initial(w)
    ensures WorldInv(Execute(config, w, actions))
  {
    InitialInv(w);
    ExecuteKeepsInv(config, w, actions);
  }

  // ---------------------------------------------------------------- ownership

  /** The store without owners never differs from the store with owners: read with owners,
      the trace of any execution is free of misuse and predicts every record. */
  lemma StoreActsAsIfOwned(config: PolicyConfig, w: World, actions: seq<Action>, key: Key)
    requires Initial(w)
    ensures var after := Execute(config, w, actions);
      Recorded(PhaseOf(after.trace, key), Lookup(after.records, key))
  {
    Reachable(config, w, actions);
    assert KeyInv(Execute(config, w, actions), key);
  }

  /** A key is in flight exactly when one run, and only one, sits between its reservation
      and its release or completion. */
  lemma InFlightHasOneHolder(config: PolicyConfig, w: World, actions: seq<Action>, key: Key)
    requires Initial(w)
    ensures var after := Execute(config, w, actions);
      && (Lookup(after.records, key) == Some(InFlight) <==> exists id :: id in after.runs && Holding(after.runs[id], key))
      && (forall i, j | i in after.runs && j in after.runs && Holding(after.runs[i], key) && Holding(after.runs[j], key) ::
            i == j)
  {
    Reachable(config, w, actions);
    var after := Execute(config, w, actions);
    assert KeyInv(after, key);
    var phase := PhaseOf(after.trace, key);
    if phase.Held? || phase.Sent? {
      assert phase.owner in after.runs && Holding(after.runs[phase.owner], key);
    }
  }

  lemma {:induction false} LegalPrefix(trace: seq<Event>, key: Key, n: nat)
    requires n <= |trace| && PhaseOf(trace, key) != Misused
    ensures PhaseOf(trace[..n], key) != Misused
    decreases |trace| - n
  {
    if n < |trace| {
      LegalPrefix(trace, key, n + 1);
      assert trace[..n + 1][..n] == trace[..n];
    } else {
      assert trace[..n] == trace;
    }
  }

  /** Every release and every completion is made by the run that holds the key then. */
  lemma OnlyTheHolderReleasesOrCompletes(config: PolicyConfig, w: World, actions: seq<Action>, i: nat)
    requires Initial(w) && i < |Execute(config, w, actions).trace|
    ensures var trace := Execute(config, w, actions).trace;
      match trace[i]
      case Released(run, key) => PhaseOf(trace[..i], key) == Held(run)
      case CompletedKey(run, key, _) => PhaseOf(trace[..i], key).Sent? && PhaseOf(trace[..i], key).owner == run
      case _ => true
  {
    var trace := Execute(config, w, actions).trace;
    if EventKey(trace[i]).Some? {
      var key := EventKey(trace[i]).value;
      StoreActsAsIfOwned(config, w, actions, key);
      LegalPrefix(trace, key, i + 1);
      assert trace[..i + 1][..i] == trace[..i];
    }
  }

  // ---------------------------------------------------------------- one submission per key

  /** Once something was submitted under a key, the key stays sent or done. */
  lemma {:induction false} SubmittedStays(trace: seq<Event>, key: Key, i: nat)
    requires i < |trace| && trace[i].Submitted? && trace[i].ownKey == Some(key)
    requires PhaseOf(trace, key) != Misused
    ensures PhaseOf(trace, key).Sent? || PhaseOf(trace, key).Done?
  {
    var before := trace[..|trace| - 1];
    if i < |before| {
      LegalPrefix(trace, key, |before|);
      assert before[i] == trace[i];
      SubmittedStays(before, key, i);
    }
  }

  lemma {:induction false} SubmissionsCarryKeys(trace: seq<Event>, id: RunId, i: nat)
    requires i < |trace| && trace[i].run == id && trace[i].Submitted?
    requires StoryOf(trace, id) != Broken
    ensures trace[i].ownKey.Some?
  {
    var before := trace[..|trace| - 1];
    if i < |before| {
      assert before[i] == trace[i];
      assert StoryOf(before, id) != Broken;
      SubmissionsCarryKeys(before, id, i);
    }
  }

  /** For any number of runs and any interleaving, at most one broadcast per idempotency key
      ever returns a hash, and none returns one without a key. */
  lemma AtMostOneSubmission(config: PolicyConfig, w: World, actions: seq<Action>, i: nat, j: nat)
    requires Initial(w)
    requires i <= j < |Execute(config, w, actions).trace|
    requires var trace := Execute(config, w, actions).trace;
      trace[i].Submitted? && trace[j].Submitted? && trace[i].ownKey == trace[j].ownKey
    ensures i == j && Execute(config, w, actions).trace[i].ownKey.Some?
  {
    hide Execute, Advance, RunInv, Tells, NextPhase, NextStory, Agrees, Initial, PhaseOf, StoryOf;
    var after := Execute(config, w, actions);
    var trace := after.trace;
    Reachable(config, w, actions);
    assert trace[i] in trace;
    var id := trace[i].run;
    assert Tells(StoryOf(trace, id), after.runs[id]);
    BrokenTellsNothing(after.runs[id]);
    SubmissionsCarryKeys(trace, id, i);
    var key := trace[i].ownKey.value;
    assert KeyInv(after, key);
    if i < j {
      SecondSubmissionIsMisuse(trace, key, i, j);
    }
  }

  lemma BrokenTellsNothing(run: Run)
    ensures !Tells(Broken, run)
  {
  }

  lemma SecondSubmissionIsMisuse(trace: seq<Event>, key: Key, i: nat, j: nat)
    requires i < j < |trace| && trace[i].Submitted? && trace[j].Submitted?
    requires trace[i].ownKey == trace[j].ownKey == Some(key)
    ensures PhaseOf(trace, key) == Misused
  {
    if PhaseOf(trace, key) != Misused {
      LegalPrefix(trace, key, j);
      LegalPrefix(trace, key, j + 1);
      assert trace[..j][i] == trace[i] && trace[..j + 1][..j] == trace[..j];
      SubmittedStays(trace[..j], key, i);
    }
  }

  // ---------------------------------------------------------------- completion is final

  lemma StepKeepsCompleted(config: PolicyConfig, w: World, action: Action, key: Key, result: ExecutionResult)
    requires WorldInv(w) && Lookup(w.records, key) == Some(Completed(result))
    ensures Lookup(Step(config, w, action).records, key) == Some(Completed(result))
  {
    assert KeyInv(w, key);
    if action.run in w.runs {
      var id, phase := action.run, PhaseOf(w.trace, key);
      AdvanceIsDisciplined(config, phase, id, w.runs[id], w.records, action.answers, key);
    }
  }

  /** Over whole executions a completed key keeps the result it was completed with. */
  lemma {:induction false} CompletedIsAbsorbing(config: PolicyConfig, w: World, actions: seq<Action>, key: Key,
                                                result: ExecutionResult)
    requires WorldInv(w) && Lookup(w.records, key) == Some(Completed(result))
    ensures Lookup(Execute(config, w, actions).records, key) == Some(Completed(result))
  {
    if actions != [] {
      var before := actions[..|actions| - 1];
      CompletedIsAbsorbing(config, w, before, key, result);
      ExecuteKeepsInv(config, w, before);
      StepKeepsCompleted(config, Execute(config, w, before), actions[|actions| - 1], key, result);
    }
  }

  lemma EventsAreOwn(config: PolicyConfig, id: RunId, run: Run, records: Records, a: Answers)
    ensures var e := Advance(config, id, run, records, a);
      |e.events| <= 1 && (e.events != [] ==> e.events[0].run == id)
  {
    hide Advance;
    StepCalls(config, id, run, records, a);
  }

  /** The run still waits at the gate, or it has stopped there and its result is the stored one. */
  predicate WaitsOrReplays(run: Run, story: Story, key: Key, result: ExecutionResult) {
    && RunKey(run.state) == Some(key)
    && (run.at == CheckIdempotency
        || ((run.at == RejectTransaction || run.at == Finished) && run.state.result == Some(result)
            && story == Replay(key, result)))
  }

  lemma LateStepReplays(config: PolicyConfig, id: RunId, run: Run, story: Story, records: Records, a: Answers, key: Key,
                        result: ExecutionResult)
    requires RunInv(run) && Tells(story, run) && WaitsOrReplays(run, story, key, result)
    requires Lookup(records, key) == Some(Completed(result))
    ensures var e := Advance(config, id, run, records, a);
      WaitsOrReplays(e.run, if e.events == [] then story else NextStory(story, e.events[0]), key, result)
  {
    hide PassedPolicy, IsApproved;
  }

  lemma {:induction false} LateRunReplays(config: PolicyConfig, w: World, actions: seq<Action>, id: RunId, key: Key,
                                          result: ExecutionResult)
    requires WorldInv(w) && Lookup(w.records, key) == Some(Completed(result))
    requires id in w.runs && WaitsOrReplays(w.runs[id], StoryOf(w.trace, id), key, result)
    ensures var after := Execute(config, w, actions);
      id in after.runs && WaitsOrReplays(after.runs[id], StoryOf(after.trace, id), key, result)
  {
    hide Advance, RunInv, Tells, WaitsOrReplays;
    if actions != [] {
      var before, last := actions[..|actions| - 1], actions[|actions| - 1];
      LateRunReplays(config, w, before, id, key, result);
      CompletedIsAbsorbing(config, w, before, key, result);
      ExecuteKeepsInv(config, w, before);
      var mid := Execute(config, w, before);
      if last.run in mid.runs {
        var e := Advance(config, last.run, mid.runs[last.run], mid.records, last.answers);
        EventsAreOwn(config, last.run, mid.runs[last.run], mid.records, last.answers);
        StoryAfter(mid.trace, e.events, id);
        if last.run == id {
          LateStepReplays(config, id, mid.runs[id], StoryOf(mid.trace, id), mid.records, last.answers, key, result);
        }
      }
    }
  }

  /** Before its key is reserved, and after a replay, a run has never called the signer or
      submitted. */
  lemma {:induction false} NoSignerCall(trace: seq<Event>, id: RunId, i: nat)
    requires i < |trace| && trace[i].run == id && (trace[i].SignerCalled? || trace[i].Submitted?)
    ensures var story := StoryOf(trace, id);
      story != Idle && !story.Cleared? && !story.Doomed? && !story.Replay? && !story.Keyed?
  {
    var before := trace[..|trace| - 1];
    if i < |before| {
      assert before[i] == trace[i];
      NoSignerCall(before, id, i);
    }
  }

  ghost predicate Silent(trace: seq<Event>, id: RunId) {
    forall e | e in trace && e.run == id :: !e.SignerCalled? && !e.Submitted?
  }

  /** The story of a run that reserved nothing. */
  predicate Unsigned(story: Story) {
    story == Idle || story.Cleared? || story.Doomed? || story.Replay?
  }

  lemma UnsignedRunsAreSilent(trace: seq<Event>, id: RunId)
    requires Unsigned(StoryOf(trace, id))
    ensures Silent(trace, id)
  {
    forall e | e in trace && e.run == id
      ensures !e.SignerCalled? && !e.Submitted?
    {
      var i :| 0 <= i < |trace| && trace[i] == e;
      if e.SignerCalled? || e.Submitted? {
        NoSignerCall(trace, id, i);
      }
    }
  }

  /** Every run that reaches the idempotency gate once its key is completed ends with exactly
      the stored result, and never calls the signer. */
  lemma CompletedKeyReplays(config: PolicyConfig, w: World, actions: seq<Action>, more: seq<Action>, id: RunId, key: Key,
                            result: ExecutionResult)
    requires Initial(w)
    requires var mid := Execute(config, w, actions);
      && Lookup(mid.records, key) == Some(Completed(result))
      && id in mid.runs && mid.runs[id].at == CheckIdempotency && RunKey(mid.runs[id].state) == Some(key)
    ensures var after := Execute(config, Execute(config, w, actions), more);
      && Lookup(after.records, key) == Some(Completed(result))
      && id in after.runs && WaitsOrReplays(after.runs[id], StoryOf(after.trace, id), key, result)
      && Silent(after.trace, id)
  {
    hide Advance, RunInv, Execute, KeyInv, Step;
    var mid := Execute(config, w, actions);
    Reachable(config, w, actions);
    ExecuteKeepsInv(config, mid, more);
    CompletedIsAbsorbing(config, mid, more, key, result);
    LateRunReplays(config, mid, more, id, key, result);
    var after := Execute(config, mid, more);
    assert Tells(StoryOf(after.trace, id), after.runs[id]);
    UnsignedRunsAreSilent(after.trace, id);
  }

  // ---------------------------------------------------------------- the gates

  /** The run's turn number `i` was its simulation of this transaction, and this was answered. */
  ghost predicate SimulatedAt(config: PolicyConfig, w: World, actions: seq<Action>, i: nat, id: RunId,
                              tx: ExecutableTransaction, answer: Try<SimulationResult>)
  {
    && i < |actions| && actions[i].run == id && actions[i].answers.simulation == answer
    && var mid := Execute(config, w, actions[..i]);
       && id in mid.runs && mid.runs[id].at == SimulateTransaction && mid.runs[id].state.error.None?
       && mid.runs[id].state.executable == Some(tx)
  }

  /** The run's turn number `i` showed a human what there is to see of this transaction, and this
      was answered. */
  ghost predicate AskedAt(config: PolicyConfig, w: World, actions: seq<Action>, i: nat, id: RunId,
                          tx: ExecutableTransaction, answer: Try<ApprovalResult>)
  {
    && i < |actions| && actions[i].run == id && actions[i].answers.approval == answer && BuildApprovalRequest(tx).Ok?
    && var mid := Execute(config, w, actions[..i]);
       && id in mid.runs && mid.runs[id].at == RequestApproval && mid.runs[id].state.executable.Some?
       && BuildApprovalRequest(mid.runs[id].state.executable.value) == BuildApprovalRequest(tx)
  }

  /** The simulation that was answered lets the transaction through to the signer: it passed,
      policy does not reject the transaction with it, and wherever policy asks for a human, and
      for everything that moves value, a human was asked about it and agreed. */
  ghost predicate LetThrough(config: PolicyConfig, w: World, actions: seq<Action>, id: RunId, tx: ExecutableTransaction,
                             simulation: SimulationResult)
  {
    && simulation.passed
    && var decision := Evaluate(config, tx, Some(simulation));
       && decision.Ok? && decision.value.status != PolicyRejected
       && (tx.IsValueMoving() ==> decision.value.status == NeedsApproval)
       && (decision.value.status == NeedsApproval ==>
             exists j: nat, reply :: AskedAt(config, w, actions, j, id, tx, Ok(reply)) && reply.status == Approved)
  }

  /** On every reachable state, a run that calls the signer had turns at which the outside world
      let the very transaction through that is signed, whatever its metadata claims; and it holds
      that transaction's key, which it reserved itself. */
  lemma GateSafety(config: PolicyConfig, w: World, actions: seq<Action>, action: Action, tx: ExecutableTransaction,
                   signature: Try<HexData>)
    requires Initial(w) && action.run in Execute(config, w, actions).runs
    requires var mid := Execute(config, w, actions);
      Advance(config, action.run, mid.runs[action.run], mid.records, action.answers).events
      == [SignerCalled(action.run, tx, signature)]
    ensures var mid := Execute(config, w, actions);
      && (exists i: nat, simulation ::
            && SimulatedAt(config, w, actions, i, action.run, tx, Ok(simulation))
            && LetThrough(config, w, actions, action.run, tx, simulation))
      && tx.idempotencyKey.Some?
      && PhaseOf(mid.trace, tx.idempotencyKey.value) == Held(action.run)
      && Lookup(mid.records, tx.idempotencyKey.value) == Some(InFlight)
  {
    hide Execute, Advance, Evaluate, NextStory, AllJudged, PhaseOf, StoryOf, LetThrough, SimulatedAt;
    var mid := Execute(config, w, actions);
    var id, run := action.run, mid.runs[action.run];
    Reachable(config, w, actions);
    SignerCalledAtSign(config, id, run, mid.records, action.answers, tx, signature);
    assert KeyInv(mid, RunKey(run.state).value);
    assert Tells(StoryOf(mid.trace, id), run);
    InitialInv(w);
    FreshAreUnjudged(config, w);
    ExecuteKeepsJudged(config, w, actions);
    assert AllJudged(config, mid);
    SignedWasLetThrough(config, w, actions, id);
  }

  lemma FreshAreUnjudged(config: PolicyConfig, w: World)
    requires Initial(w)
    ensures AllJudged(config, w)
  {
  }

  lemma SignedWasLetThrough(config: PolicyConfig, w: World, actions: seq<Action>, id: RunId)
    requires WorldInv(w) && w.trace == [] && id in Execute(config, w, actions).runs
    requires var run := Execute(config, w, actions).runs[id];
      run.at == SignTransaction && RunInv(run) && Tells(StoryOf(Execute(config, w, actions).trace, id), run)
    requires AllJudged(config, Execute(config, w, actions))
    ensures var s := Execute(config, w, actions).runs[id].state;
      && s.executable.Some? && s.simulation.Some?
      && (exists i: nat :: SimulatedAt(config, w, actions, i, id, s.executable.value, Ok(s.simulation.value)))
      && LetThrough(config, w, actions, id, s.executable.value, s.simulation.value)
  {
    hide Execute, Advance, Evaluate, NextStory, StoryOf, BuildApprovalRequest, RunsInv, KeyInv, SimulatedAt, AskedAt;
    var mid := Execute(config, w, actions);
    var run, story := mid.runs[id], StoryOf(mid.trace, id);
    ClearanceOnTrace(mid.trace, id);
    assert Judged(config, run);
    SimulationHadTurn(config, w, actions, id, story.clearance.tx, Ok(story.clearance.simulation));
    if story.clearance.granted {
      var reply :| GrantedOn(mid.trace, id, story.clearance.tx, reply);
      ApprovalHadTurn(config, w, actions, id, story.clearance.tx, Ok(reply));
    }
  }

  predicate GrantedOn(trace: seq<Event>, id: RunId, tx: ExecutableTransaction, reply: ApprovalResult) {
    && reply.status == Approved && BuildApprovalRequest(tx).Ok?
    && Asked(id, BuildApprovalRequest(tx).value, Ok(reply)) in trace
  }

  ghost predicate ClearedOn(trace: seq<Event>, id: RunId, c: Clearance) {
    && c.simulation.passed && Simulated(id, c.tx, Ok(c.simulation)) in trace
    && (c.granted ==> exists reply :: GrantedOn(trace, id, c.tx, reply))
  }

  /** What a run was cleared for is on the trace. */
  lemma {:induction false} ClearanceOnTrace(trace: seq<Event>, id: RunId)
    ensures var story := StoryOf(trace, id);
      story.Cleared? || story.Keyed? ==> ClearedOn(trace, id, story.clearance)
  {
    if trace != [] {
      hide BuildApprovalRequest, MaySign;
      var before, last := trace[..|trace| - 1], trace[|trace| - 1];
      ClearanceOnTrace(before, id);
      assert last in trace && forall e | e in before :: e in trace;
      var story := StoryOf(trace, id);
      if (story.Cleared? || story.Keyed?) && story.clearance.granted {
        if last.run == id && last.Asked? {
          assert GrantedOn(trace, id, story.clearance.tx, last.reply.value);
        } else {
          var reply :| GrantedOn(before, id, story.clearance.tx, reply);
          assert GrantedOn(trace, id, story.clearance.tx, reply);
        }
      }
    }
  }

  lemma SimulationHadTurn(config: PolicyConfig, w: World, actions: seq<Action>, id: RunId, tx: ExecutableTransaction,
                          answer: Try<SimulationResult>)
    requires WorldInv(w) && w.trace == [] && Simulated(id, tx, answer) in Execute(config, w, actions).trace
    ensures exists i: nat :: SimulatedAt(config, w, actions, i, id, tx, answer)
  {
    hide Execute, Advance, RunsInv, KeyInv;
    EventHasTurn(config, w, actions, Simulated(id, tx, answer));
    var i: nat :| Emits(config, w, actions, i, Simulated(id, tx, answer));
    var mid := Execute(config, w, actions[..i]);
    SimulatedAtItsNode(config, actions[i].run, mid.runs[actions[i].run], mid.records, actions[i].answers, id, tx, answer);
    assert SimulatedAt(config, w, actions, i, id, tx, answer);
  }

  lemma SimulatedAtItsNode(config: PolicyConfig, moved: RunId, run: Run, records: Records, a: Answers, id: RunId,
                           tx: ExecutableTransaction, answer: Try<SimulationResult>)
    requires Advance(config, moved, run, records, a).events == [Simulated(id, tx, answer)]
    ensures moved == id && run.at == SimulateTransaction && run.state.error.None? && run.state.executable == Some(tx)
    ensures a.simulation == answer
  {
    hide Advance;
    StepCalls(config, moved, run, records, a);
  }

  lemma ApprovalHadTurn(config: PolicyConfig, w: World, actions: seq<Action>, id: RunId, tx: ExecutableTransaction,
                        answer: Try<ApprovalResult>)
    requires WorldInv(w) && w.trace == [] && BuildApprovalRequest(tx).Ok?
    requires Asked(id, BuildApprovalRequest(tx).value, answer) in Execute(config, w, actions).trace
    ensures exists i: nat :: AskedAt(config, w, actions, i, id, tx, answer)
  {
    hide Execute, Advance, RunsInv, KeyInv, BuildApprovalRequest;
    var request := BuildApprovalRequest(tx).value;
    EventHasTurn(config, w, actions, Asked(id, request, answer));
    var i: nat :| Emits(config, w, actions, i, Asked(id, request, answer));
    var mid := Execute(config, w, actions[..i]);
    AskedAtItsNode(config, actions[i].run, mid.runs[actions[i].run], mid.records, actions[i].answers, id, request, answer);
    assert AskedAt(config, w, actions, i, id, tx, answer);
  }

  lemma AskedAtItsNode(config: PolicyConfig, moved: RunId, run: Run, records: Records, a: Answers, id: RunId,
                       request: ApprovalRequest, reply: Try<ApprovalResult>)
    requires Advance(config, moved, run, records, a).events == [Asked(id, request, reply)]
    ensures moved == id && run.at == RequestApproval && run.state.executable.Some?
    ensures BuildApprovalRequest(run.state.executable.value) == Ok(request) && a.approval == reply
  {
    hide Advance;
    StepCalls(config, moved, run, records, a);
  }

  /** Nothing is done any more in a story that is doomed. */
  lemma {:induction false} DoomStays(trace: seq<Event>, n: nat, id: RunId)
    requires n <= |trace| && StoryOf(trace[..n], id).Doomed?
    ensures StoryOf(trace, id) == StoryOf(trace[..n], id) || StoryOf(trace, id) == Broken
    decreases |trace|
  {
    if n == |trace| {
      assert trace[..n] == trace;
    } else {
      var before := trace[..|trace| - 1];
      assert before[..n] == trace[..n];
      DoomStays(before, n, id);
    }
  }

  /** A run whose story is doomed at some turn ends with that status and never signs. */
  lemma DoomedNeverSigns(config: PolicyConfig, w: World, actions: seq<Action>, n: nat, id: RunId)
    requires Initial(w) && n <= |actions|
    requires id in Execute(config, w, actions[..n]).runs && StoryOf(Execute(config, w, actions[..n]).trace, id).Doomed?
    ensures var after, doom := Execute(config, w, actions), StoryOf(Execute(config, w, actions[..n]).trace, id);
      && Silent(after.trace, id) && id in after.runs
      && (after.runs[id].at == Finished ==>
            after.runs[id].state.result.Some? && after.runs[id].state.result.value.status == doom.status)
  {
    hide Execute, Advance, Step, KeyInv, NextStory, StoryOf, Silent;
    var mid, after := Execute(config, w, actions[..n]), Execute(config, w, actions);
    Reachable(config, w, actions);
    TraceGrows(config, w, actions, n);
    RunsStay(config, w, actions, n, id);
    assert after.trace[..|mid.trace|] == mid.trace;
    DoomStays(after.trace, |mid.trace|, id);
    assert Tells(StoryOf(after.trace, id), after.runs[id]);
    BrokenTellsNothing(after.runs[id]);
    UnsignedRunsAreSilent(after.trace, id);
  }

  lemma {:induction false} RunsStay(config: PolicyConfig, w: World, actions: seq<Action>, n: nat, id: RunId)
    requires n <= |actions| && id in Execute(config, w, actions[..n]).runs
    ensures id in Execute(config, w, actions).runs
    decreases |actions|
  {
    if n == |actions| {
      assert actions[..n] == actions;
    } else {
      hide Advance;
      var before := actions[..|actions| - 1];
      assert before[..n] == actions[..n];
      RunsStay(config, w, before, n, id);
    }
  }

  lemma NextTurn(config: PolicyConfig, w: World, actions: seq<Action>, i: nat)
    requires i < |actions|
    ensures Execute(config, w, actions[..i + 1]) == Step(config, Execute(config, w, actions[..i]), actions[i])
  {
    hide Step;
    assert actions[..i + 1][..i] == actions[..i];
  }

  /** A run whose simulation raised or did not pass never signs, under any schedule and whatever
      else is answered, and it ends rejected. */
  lemma FailedSimulationNeverSigns(config: PolicyConfig, w: World, actions: seq<Action>, i: nat, id: RunId,
                                   tx: ExecutableTransaction, answer: Try<SimulationResult>)
    requires Initial(w) && SimulatedAt(config, w, actions, i, id, tx, answer)
    requires answer.Ok? ==> !answer.value.passed
    ensures var after := Execute(config, w, actions);
      && Silent(after.trace, id) && id in after.runs
      && (after.runs[id].at == Finished ==>
            after.runs[id].state.result.Some? && after.runs[id].state.result.value.status == Rejected)
  {
    hide Execute, Silent, KeyInv, StoryOf, SimulateNode;
    var mid := Execute(config, w, actions[..i]);
    Reachable(config, w, actions[..i]);
    assert Tells(StoryOf(mid.trace, id), mid.runs[id]);
    NextTurn(config, w, actions, i);
    StoryAfter(mid.trace, [Simulated(id, tx, answer)], id);
    DoomedNeverSigns(config, w, actions, i + 1, id);
  }

  /** Nor does a run whose human raised, refused or was not there: it ends denied. */
  lemma RefusedApprovalNeverSigns(config: PolicyConfig, w: World, actions: seq<Action>, i: nat, id: RunId,
                                  tx: ExecutableTransaction, answer: Try<ApprovalResult>)
    requires Initial(w) && AskedAt(config, w, actions, i, id, tx, answer)
    requires answer.Ok? ==> answer.value.status != Approved
    ensures var after := Execute(config, w, actions);
      && Silent(after.trace, id) && id in after.runs
      && (after.runs[id].at == Finished ==>
            after.runs[id].state.result.Some? && after.runs[id].state.result.value.status == ApprovalDenied)
  {
    hide Execute, Silent, KeyInv, StoryOf, RequestApprovalNode, BuildApprovalRequest;
    var mid := Execute(config, w, actions[..i]);
    Reachable(config, w, actions[..i]);
    assert Tells(StoryOf(mid.trace, id), mid.runs[id]);
    NextTurn(config, w, actions, i);
    StoryAfter(mid.trace, [Asked(id, BuildApprovalRequest(tx).value, answer)], id);
    DoomedNeverSigns(config, w, actions, i + 1, id);
  }

  lemma SignerCalledAtSign(config: PolicyConfig, id: RunId, run: Run, records: Records, a: Answers,
                           tx: ExecutableTransaction, signature: Try<HexData>)
    requires Advance(config, id, run, records, a).events == [SignerCalled(id, tx, signature)]
    ensures run.at == SignTransaction && run.state.executable == Some(tx) && a.signature == signature
  {
    hide EvaluatePolicyNode, RequestApprovalNode, ResolveNonceNode, PopulateGasNode, SimulateNode, RejectNode;
  }

  /** The human is shown the destination, value, data, chain and wallet the signer gets, under
      the key and with the metadata of the transaction; without a key nobody is shown anything. */
  lemma ApprovedIsSigned(tx: ExecutableTransaction)
    ensures BuildApprovalRequest(tx).Ok? <==> tx.idempotencyKey.Some?
    ensures BuildApprovalRequest(tx).Ok? ==>
      var shown, signed := BuildApprovalRequest(tx).value, ToSigningRequest(tx);
      && shown.to == signed.to && shown.valueWei == signed.valueWei && shown.data == signed.data
      && shown.chainId == signed.chainId && shown.walletId == signed.walletId
      && shown.fromAddress == signed.expectedAddress
      && shown.chain == tx.chain && tx.idempotencyKey == Some(shown.idempotencyKey) && shown.metadata == tx.metadata
      && signed.nonce == tx.nonce && signed.gas == tx.gas && signed.chainId == tx.chainId && signed.to == tx.to
      && signed.valueWei == tx.valueWei && signed.data == tx.data && signed.walletId == tx.walletId
      && signed.expectedAddress == tx.fromAddress
  {
  }

  // ---------------------------------------------------------------- no leaks

  lemma {:induction false} ReservedStory(trace: seq<Event>, id: RunId, key: Key, i: nat)
    requires i < |trace| && trace[i] == Reserved(id, key)
    ensures var story := StoryOf(trace, id);
      match story
      case Idle => false
      case Cleared(_) => false
      case Doomed(_) => false
      case Replay(_, _) => false
      case Broken => true
      case Keyed(k, _) => k == key
      case Called(k, _, _) => k == key
      case Submitting(k, _) => k == key
      case Answered(k, _, _) => k == key
      case GaveUp(k) => k == key
      case Finalized(k, _) => k == key
  {
    var before := trace[..|trace| - 1];
    if i < |before| {
      assert before[i] == trace[i];
      ReservedStory(before, id, key, i);
    }
  }

  /** The run has submitted something under the key, and this hash came back. */
  ghost predicate SubmittedOn(trace: seq<Event>, id: RunId, key: Key, hash: string) {
    exists raw :: Submitted(id, Some(key), raw, hash) in trace
  }

  lemma {:induction false} StoryOnTrace(trace: seq<Event>, id: RunId)
    ensures match StoryOf(trace, id)
      case Submitting(key, hash) => SubmittedOn(trace, id, key, hash)
      case Answered(key, hash, receipt) => SubmittedOn(trace, id, key, hash) && Waited(id, hash, receipt) in trace
      case GaveUp(key) => Released(id, key) in trace
      case Finalized(key, result) =>
        && CompletedKey(id, key, result) in trace
        && exists hash, receipt ::
             SubmittedOn(trace, id, key, hash) && Waited(id, hash, receipt) in trace && Reports(result, hash, receipt)
      case Replay(key, result) => Replayed(id, key, result) in trace
      case _ => true
  {
    if trace != [] {
      var before, last := trace[..|trace| - 1], trace[|trace| - 1];
      StoryOnTrace(before, id);
      assert forall e | e in before :: e in trace;
      assert last in trace;
    }
  }

  lemma {:induction false} SubmittedStory(trace: seq<Event>, id: RunId, i: nat)
    requires i < |trace| && trace[i].run == id && trace[i].Submitted?
    ensures var story := StoryOf(trace, id);
      story.Submitting? || story.Answered? || story.Finalized? || story.Broken?
  {
    var before := trace[..|trace| - 1];
    if i < |before| {
      assert before[i] == trace[i];
      SubmittedStory(before, id, i);
    }
  }

  ghost predicate HasSubmitted(trace: seq<Event>, id: RunId) {
    exists i :: 0 <= i < |trace| && trace[i].run == id && trace[i].Submitted?
  }

  lemma FinalizedHasSubmitted(trace: seq<Event>, id: RunId)
    requires StoryOf(trace, id).Finalized?
    ensures HasSubmitted(trace, id)
  {
    StoryOnTrace(trace, id);
    var key := StoryOf(trace, id).key;
    var hash, receipt :| SubmittedOn(trace, id, key, hash) && Waited(id, hash, receipt) in trace;
    var raw :| Submitted(id, Some(key), raw, hash) in trace;
    var i :| 0 <= i < |trace| && trace[i] == Submitted(id, Some(key), raw, hash);
  }

  /** A run that reserved a key and finished has completed it if its broadcast returned, even
      when monitoring failed, and has released it otherwise. */
  lemma NoReservationLeaks(config: PolicyConfig, w: World, actions: seq<Action>, id: RunId, key: Key)
    requires Initial(w)
    requires var after := Execute(config, w, actions);
      id in after.runs && after.runs[id].at == Finished && Reserved(id, key) in after.trace
    ensures var after := Execute(config, w, actions);
      && !Holding(after.runs[id], key)
      && after.runs[id].state.result.Some?
      && if HasSubmitted(after.trace, id) then CompletedKey(id, key, after.runs[id].state.result.value) in after.trace
         else Released(id, key) in after.trace
  {
    hide Execute, Advance, KeyInv, RunInv, StoryOf, Initial;
    var after := Execute(config, w, actions);
    Reachable(config, w, actions);
    assert Tells(StoryOf(after.trace, id), after.runs[id]);
    var i :| 0 <= i < |after.trace| && after.trace[i] == Reserved(id, key);
    ReservedStory(after.trace, id, key, i);
    StoryOnTrace(after.trace, id);
    if StoryOf(after.trace, id).Finalized? {
      FinalizedHasSubmitted(after.trace, id);
    }
    if HasSubmitted(after.trace, id) {
      var j :| 0 <= j < |after.trace| && after.trace[j].run == id && after.trace[j].Submitted?;
      SubmittedStory(after.trace, id, j);
    }
  }

  /** The one exception, exactly: a stopped run still holds a key if and only if it crashed,
      and waiting for a receipt crashes a run if and only if it raises for a hash that is not
      hex data. */
  lemma OnlyCrashesLeak(config: PolicyConfig, w: World, actions: seq<Action>, id: RunId)
    requires Initial(w) && id in Execute(config, w, actions).runs
    requires var at := Execute(config, w, actions).runs[id].at; at == Finished || at == Crashed
    ensures var run := Execute(config, w, actions).runs[id];
      && ((exists key: Key :: Holding(run, key)) <==> run.at == Crashed)
      && (run.at == Crashed ==> run.state.txHash.Some? && !IsHexData(run.state.txHash.value))
  {
    Reachable(config, w, actions);
    var run := Execute(config, w, actions).runs[id];
    assert RunInv(run);
    if run.at == Crashed {
      assert Holding(run, RunKey(run.state).value);
    }
  }

  lemma MonitorCrashesExactlyOnBadHash(id: RunId, s: State, a: Answers, records: Records)
    requires RunInv(Run(MonitorReceipt, s)) && s.result.None?
    ensures MonitorStep(id, s, a, records).run.at == Crashed <==> a.receipt.Raised? && !IsHexData(s.txHash.value)
  {
  }

  /** The key of a crashed run stays in flight for ever. */
  lemma {:induction false} CrashLeaksForever(config: PolicyConfig, w: World, actions: seq<Action>, id: RunId, key: Key)
    requires WorldInv(w) && id in w.runs && w.runs[id].at == Crashed && RunKey(w.runs[id].state) == Some(key)
    ensures var after := Execute(config, w, actions);
      && id in after.runs && after.runs[id] == w.runs[id]
      && Lookup(after.records, key) == Some(InFlight)
  {
    ExecuteKeepsInv(config, w, actions);
    if actions != [] {
      CrashLeaksForever(config, w, actions[..|actions| - 1], id, key);
    }
    var after := Execute(config, w, actions);
    assert RunInv(w.runs[id]);
    assert KeyInv(after, key);
    assert Holding(after.runs[id], key);
  }

  /** The release branch of the monitor-failure handler is never taken. */
  lemma MonitorFailureCompletes(config: PolicyConfig, w: World, actions: seq<Action>, id: RunId, a: Answers)
    requires Initial(w) && id in Execute(config, w, actions).runs
    requires Execute(config, w, actions).runs[id].at.RecordFailure?
    ensures var mid := Execute(config, w, actions);
      var run := mid.runs[id];
      && RunKey(run.state).Some?
      && Advance(config, id, run, mid.records, a).events
         == [CompletedKey(id, RunKey(run.state).value, run.at.outcome)]
  {
    Reachable(config, w, actions);
    var run := Execute(config, w, actions).runs[id];
    assert RunInv(run);
    HexDataIsNotBlank(run.state.txHash.value);
  }

  /** A released key is free again: the next run at the gate with that key reserves it. */
  lemma ReleasedKeyCanBeReserved(config: PolicyConfig, w: World, actions: seq<Action>, action: Action, key: Key,
                                 next: RunId, a: Answers)
    requires Initial(w) && action.run in Execute(config, w, actions).runs
    requires var mid := Execute(config, w, actions);
      Advance(config, action.run, mid.runs[action.run], mid.records, action.answers).events == [Released(action.run, key)]
    requires var after := Step(config, Execute(config, w, actions), action);
      next in after.runs && after.runs[next].at == CheckIdempotency && RunKey(after.runs[next].state) == Some(key)
    ensures var after := Step(config, Execute(config, w, actions), action);
      && Lookup(after.records, key).None?
      && Advance(config, next, after.runs[next], after.records, a).events == [Reserved(next, key)]
      && Advance(config, next, after.runs[next], after.records, a).run.at == SignTransaction
  {
    var mid := Execute(config, w, actions);
    var after := Step(config, mid, action);
    Reachable(config, w, actions);
    StepKeepsInv(config, mid, action);
    assert KeyInv(after, key);
    PhaseAfter(mid.trace, [Released(action.run, key)], key);
    assert RunInv(after.runs[next]);
  }
}
