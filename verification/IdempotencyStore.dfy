/** The idempotency store (mercury/policy/idempotency.py). Each method body runs under the
    store's lock, so each is one atomic step for the runs that share the store. */
module IdempotencyStore {
  import opened Outcomes
  import opened Transactions

  datatype Record = InFlight | Completed(result: ExecutionResult)

  type Records = map<Key, Record>

  function Lookup(records: Records, key: Key): Option<Record> {
    if key in records then Some(records[key]) else None
  }

  function AfterReserve(records: Records, key: Key): Records {
    if key in records then records else records[key := InFlight]
  }

  function AfterRelease(records: Records, key: Key): Records {
    if Lookup(records, key) == Some(InFlight) then records - {key} else records
  }

  function AfterComplete(records: Records, key: Key, result: ExecutionResult): Records {
    records[key := Completed(result)]
  }

  class InMemoryIdempotencyStore {
    var records: Records

    constructor ()
      ensures records == map[]
    {
      records := map[];
    }

    method Get(key: Key) returns (record: Option<Record>)
      ensures record == Lookup(records, key)
    {
      if key in records {
        record := Some(records[key]);
      } else {
        record := None;
      }
    }

    /** Yields the existing record instead of raising `DuplicateTransactionError` with it. */
    method Reserve(key: Key) returns (duplicate: Option<Record>)
      modifies this
      ensures duplicate == Lookup(old(records), key)
      ensures records == AfterReserve(old(records), key)
    {
      duplicate := Get(key);
      if duplicate.None? {
        records := records[key := InFlight];
      }
    }

    method Release(key: Key)
      modifies this
      ensures records == AfterRelease(old(records), key)
    {
      var existing := Get(key);
      if existing.Some? && existing.value.InFlight? {
        records := map k | k in records && k != key :: records[k];
      }
    }

    method Complete(key: Key, result: ExecutionResult)
      modifies this
      ensures records == AfterComplete(old(records), key, result)
    {
      records := records[key := Completed(result)];
    }
  }
}
