/** The four nodes that change the shared store, as they run: each calls the store where the
    source does, and is proved equal to its steps in the protocol. */
module PipelineNodes {
  import opened Outcomes
  import opened Text
  import opened Calldata
  import opened Transactions
  import opened IdempotencyStore
  import opened Pipeline

  /** A step, and the release it calls for when it gave up before submitting. */
  function WithRelease(id: RunId, e: Effect, stage: string, next: Node): Effect {
    match e.run.at
    case ReleaseAfterSign(m) => ReleaseStep(id, e.run.state, stage, m, next, e.records)
    case ReleaseAfterBroadcast(m) => ReleaseStep(id, e.run.state, stage, m, next, e.records)
    case _ => e
  }

  /** A step, and the completion it leads to. */
  function WithRecording(id: RunId, e: Effect): Effect {
    match e.run.at
    case RecordReceipt(outcome) => CompleteStep(id, e.run.state, outcome, e.records)
    case RecordFailure(outcome) => RecordFailureStep(id, e.run.state, outcome, e.records)
    case _ => e
  }

  method CheckIdempotency(store: InMemoryIdempotencyStore, s: State, ghost id: RunId) returns (after: State)
    modifies store
    ensures var e := CheckIdempotencyStep(id, s, old(store.records));
      after == e.run.state && store.records == e.records
  {
    after := s;
    if s.executable.None? {
      after := s.(result := Some(FailedAt(s, Rejected, "check_idempotency", NO_EXECUTABLE)));
    } else if s.executable.value.idempotencyKey.None? {
      after := s.(result := Some(FailedAt(s, Rejected, "check_idempotency", NO_KEY)));
    } else {
      var duplicate := store.Reserve(s.executable.value.idempotencyKey.value);
      if duplicate.Some? {
        if duplicate.value.Completed? {
          after := s.(result := Some(duplicate.value.result));
        } else {
          after := s.(result := Some(FailedAt(s, Rejected, "check_idempotency", IN_FLIGHT)));
        }
      }
    }
  }

  method ReleaseAfterPreBroadcastFailure(store: InMemoryIdempotencyStore, s: State)
    modifies store
    ensures store.records == if RunKey(s).Some? then AfterRelease(old(store.records), RunKey(s).value) else old(store.records)
  {
    var key := RunKey(s);
    if key.Some? {
      store.Release(key.value);
    }
  }

  method SignTransaction(store: InMemoryIdempotencyStore, s: State, a: Answers, ghost id: RunId) returns (after: State)
    modifies store
    ensures var e := WithRelease(id, SignStep(id, s, a, old(store.records)), "sign_transaction", Node.BroadcastTransaction);
      e.run == Run(Node.BroadcastTransaction, after) && store.records == e.records
  {
    var outcome := if s.executable.None? then Raised(NO_EXECUTABLE)
                   else a.signature;
    match outcome
    case Ok(raw) =>
      after := s.(signed := Some(raw));
    case Raised(message) =>
      ReleaseAfterPreBroadcastFailure(store, s);
      after := s.(result := Some(FailedAt(s, Failed, "sign_transaction", message)));
  }

  method BroadcastTransaction(store: InMemoryIdempotencyStore, s: State, a: Answers, ghost id: RunId)
    returns (after: State)
    modifies store
    ensures var e := WithRelease(id, BroadcastStep(id, s, a, old(store.records)), "broadcast_transaction", Node.MonitorReceipt);
      e.run == Run(Node.MonitorReceipt, after) && store.records == e.records
  {
    if s.result.Some? {
      return s;
    }
    var outcome := if s.signed.None? then Raised("signed_transaction") else a.broadcast;
    match outcome
    case Ok(hash) =>
      after := s.(txHash := Some(hash));
    case Raised(message) =>
      ReleaseAfterPreBroadcastFailure(store, s);
      after := s.(result := Some(FailedAt(s, Failed, "broadcast_transaction", message)));
  }

  method FinalizeAfterMonitorFailure(store: InMemoryIdempotencyStore, s: State, result: ExecutionResult)
    modifies store
    ensures forall id :: store.records == RecordFailureStep(id, s, result, old(store.records)).records
  {
    var key := RunKey(s);
    if key.None? {
      return;
    }
    if s.txHash.Some? && Strip(s.txHash.value) != "" {
      store.Complete(key.value, result);
    } else {
      store.Release(key.value);
    }
  }

  /** Yields nothing when the node itself raises. */
  method MonitorReceipt(store: InMemoryIdempotencyStore, s: State, a: Answers, ghost id: RunId)
    returns (after: Option<State>)
    modifies store
    ensures var e := WithRecording(id, MonitorStep(id, s, a, old(store.records)));
      && store.records == e.records
      && e.run == if after.Some? then Run(Finished, after.value) else Run(Crashed, s)
  {
    if s.result.Some? {
      return Some(s);
    }
    var outcome := if s.executable.None? then Raised(NO_EXECUTABLE)
                   else if s.txHash.None? then Raised("tx_hash") else a.receipt;
    match outcome
    case Ok(receipt) =>
      var result := ResultFromReceipt(s, receipt);
      if s.executable.value.idempotencyKey.Some? {
        store.Complete(s.executable.value.idempotencyKey.value, result);
      }
      after := Some(s.(result := Some(result)));
    case Raised(message) =>
      if s.txHash.Some? && !IsHexData(s.txHash.value) {
        return None;
      }
      var failed := FailedAt(s, Failed, "monitor_receipt", message);
      var result := if s.txHash.Some? then failed.(txHash := Some(s.txHash.value)) else failed;
      FinalizeAfterMonitorFailure(store, s, result);
      after := Some(s.(result := Some(result)));
  }
}
