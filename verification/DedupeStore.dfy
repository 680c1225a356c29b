/** The webhook dedupe store (mercury/webhooks/alchemy_dedupe.py): a dictionary of deadlines,
    purged and evicted in place, held against the history of accepted marks. */
module DedupeStore {
  import opened Outcomes
  import opened StableSort
  import opened DedupeHistory

  // ---------------------------------------------------------------- an insertion-ordered dictionary

  datatype Entry = Entry(key: DedupeKey, deadline: real)

  predicate HasKey(entries: seq<Entry>, key: DedupeKey) {
    exists i | 0 <= i < |entries| :: entries[i].key == key
  }

  ghost predicate UniqueKeys(entries: seq<Entry>) {
    forall i, j | 0 <= i < j < |entries| :: entries[i].key != entries[j].key
  }

  /** `d.get(key)`. */
  function Deadline(entries: seq<Entry>, key: DedupeKey): (deadline: Option<real>)
    ensures deadline.Some? <==> HasKey(entries, key)
    ensures deadline.Some? ==> Entry(key, deadline.value) in entries
  {
    if entries == [] then None
    else if entries[0].key == key then Some(entries[0].deadline)
    else
      assert HasKey(entries, key) ==> HasKey(entries[1..], key) by {
        if HasKey(entries, key) {
          var i :| 0 <= i < |entries| && entries[i].key == key;
          assert entries[1..][i - 1].key == key;
        }
      }
      Deadline(entries[1..], key)
  }

  /** `d[key] = deadline`: a known key keeps its place, a new one goes last. */
  function Assign(entries: seq<Entry>, key: DedupeKey, deadline: real): seq<Entry> {
    if entries == [] then [Entry(key, deadline)]
    else if entries[0].key == key then [Entry(key, deadline)] + entries[1..]
    else [entries[0]] + Assign(entries[1..], key, deadline)
  }

  function Without(entries: seq<Entry>, keys: set<DedupeKey>): seq<Entry> {
    if entries == [] then []
    else (if entries[0].key in keys then [] else [entries[0]]) + Without(entries[1..], keys)
  }

  /** `del d[key]`. */
  function Delete(entries: seq<Entry>, key: DedupeKey): seq<Entry>
    requires HasKey(entries, key)
  {
    Without(entries, {key})
  }

  function KeySet(entries: seq<Entry>): set<DedupeKey> {
    set e | e in entries :: e.key
  }

  function Alive(entries: seq<Entry>, now: real): seq<Entry> {
    if entries == [] then []
    else (if entries[0].deadline <= now then [] else [entries[0]]) + Alive(entries[1..], now)
  }

  function Dead(entries: seq<Entry>, now: real): seq<Entry> {
    if entries == [] then []
    else (if entries[0].deadline <= now then [entries[0]] else []) + Dead(entries[1..], now)
  }

  lemma {:induction false} NewKeyGoesLast(entries: seq<Entry>, key: DedupeKey, deadline: real)
    requires !HasKey(entries, key)
    ensures Assign(entries, key, deadline) == entries + [Entry(key, deadline)]
  {
    if entries != [] {
      assert entries[0].key != key;
      assert forall i | 0 <= i < |entries| - 1 :: entries[1..][i] == entries[i + 1];
      NewKeyGoesLast(entries[1..], key, deadline);
    }
  }

  lemma {:induction false} WithoutTwice(entries: seq<Entry>, a: set<DedupeKey>, b: set<DedupeKey>)
    ensures Without(Without(entries, a), b) == Without(entries, a + b)
  {
    if entries != [] {
      WithoutTwice(entries[1..], a, b);
      var rest := Without(entries[1..], a);
      if entries[0].key !in a {
        assert ([entries[0]] + rest)[1..] == rest;
      } else {
        assert [] + rest == rest;
      }
    }
  }

  lemma {:induction false} WithoutKeeps(entries: seq<Entry>, keys: set<DedupeKey>, e: Entry)
    ensures e in Without(entries, keys) <==> e in entries && e.key !in keys
  {
    if entries != [] {
      assert entries == [entries[0]] + entries[1..];
      WithoutKeeps(entries[1..], keys, e);
    }
  }

  lemma {:induction false} WithoutNothing(entries: seq<Entry>)
    ensures Without(entries, {}) == entries
  {
    if entries != [] {
      WithoutNothing(entries[1..]);
    }
  }

  lemma {:induction false} WithoutTheDead(entries: seq<Entry>, keys: set<DedupeKey>, now: real)
    requires forall e | e in entries :: e.key in keys <==> e.deadline <= now
    ensures Without(entries, keys) == Alive(entries, now)
  {
    if entries != [] {
      assert forall e | e in entries[1..] :: e in entries;
      assert entries[0] in entries;
      WithoutTheDead(entries[1..], keys, now);
    }
  }

  lemma {:induction false} DeadAreListed(entries: seq<Entry>, now: real)
    ensures forall e :: e in Dead(entries, now) <==> e in entries && e.deadline <= now
  {
    if entries != [] {
      DeadAreListed(entries[1..], now);
      assert entries == [entries[0]] + entries[1..];
    }
  }

  lemma {:induction false} DeadAreUnique(entries: seq<Entry>, now: real)
    requires UniqueKeys(entries)
    ensures UniqueKeys(Dead(entries, now))
  {
    if entries != [] {
      var rest := entries[1..];
      assert forall i | 0 <= i < |rest| :: rest[i] == entries[i + 1];
      DeadAreUnique(rest, now);
      DeadAreListed(rest, now);
      var dead := Dead(rest, now);
      forall i | 0 <= i < |dead| ensures dead[i].key != entries[0].key {
        assert dead[i] in rest;
      }
    }
  }

  /** With unique keys, an entry is told by its key. */
  lemma KeyTells(entries: seq<Entry>, e: Entry, f: Entry)
    requires UniqueKeys(entries) && e in entries && f in entries && e.key == f.key
    ensures e == f
  {
    var i :| 0 <= i < |entries| && entries[i] == e;
    var j :| 0 <= j < |entries| && entries[j] == f;
  }

  lemma PurgedAreAlive(entries: seq<Entry>, now: real)
    requires UniqueKeys(entries)
    ensures Without(entries, KeySet(Dead(entries, now))) == Alive(entries, now)
  {
    var dead := Dead(entries, now);
    DeadAreListed(entries, now);
    forall e | e in entries
      ensures e.key in KeySet(dead) <==> e.deadline <= now
    {
      if e.key in KeySet(dead) {
        var f :| f in dead && f.key == e.key;
        KeyTells(entries, e, f);
      }
    }
    WithoutTheDead(entries, KeySet(dead), now);
  }

  /** Deleting the keys of a prefix leaves the rest. */
  lemma {:induction false} WithoutPrefix(entries: seq<Entry>, n: nat)
    requires UniqueKeys(entries) && n <= |entries|
    ensures Without(entries, KeySet(entries[..n])) == entries[n..]
  {
    if n == 0 {
      WithoutNothing(entries);
      assert KeySet(entries[..0]) == {};
    } else {
      var head := entries[..n - 1];
      assert entries[..n] == head + [entries[n - 1]];
      assert KeySet(entries[..n]) == KeySet(head) + {entries[n - 1].key};
      WithoutPrefix(entries, n - 1);
      WithoutTwice(entries, KeySet(head), {entries[n - 1].key});
      var rest := entries[n - 1..];
      forall e | e in rest[1..] ensures e.key !in {rest[0].key} {
        var j :| 0 <= j < |rest[1..]| && rest[1..][j] == e;
        assert e == entries[n + j];
      }
      WithoutStrangers(rest[1..], {rest[0].key});
      assert rest[1..] == entries[n..];
    }
  }

  lemma {:induction false} WithoutStrangers(entries: seq<Entry>, keys: set<DedupeKey>)
    requires forall e | e in entries :: e.key !in keys
    ensures Without(entries, keys) == entries
  {
    if entries != [] {
      assert entries[0] in entries && forall e | e in entries[1..] :: e in entries;
      WithoutStrangers(entries[1..], keys);
    }
  }

  // ---------------------------------------------------------------- entries against marks

  predicate SoonerOrSame(a: Entry, b: Entry) {
    a.deadline <= b.deadline
  }

  /** How many leading entries are dead. */
  function DeadCount(entries: seq<Entry>, now: real): (n: nat)
    ensures n <= |entries|
    ensures forall i | 0 <= i < n :: entries[i].deadline <= now
    ensures n < |entries| ==> now < entries[n].deadline
  {
    if entries == [] || entries[0].deadline > now then 0 else 1 + DeadCount(entries[1..], now)
  }

  lemma {:induction false} AllAlive(entries: seq<Entry>, now: real)
    requires forall e | e in entries :: now < e.deadline
    ensures Alive(entries, now) == entries
  {
    if entries != [] {
      assert entries[0] in entries && forall e | e in entries[1..] :: e in entries;
      AllAlive(entries[1..], now);
    }
  }

  /** In deadline order the survivors of a purge are a suffix. */
  lemma {:induction false} AliveIsSuffix(entries: seq<Entry>, now: real)
    requires Ordered(entries, SoonerOrSame)
    ensures Alive(entries, now) == entries[DeadCount(entries, now)..]
  {
    if entries != [] {
      if entries[0].deadline <= now {
        AliveIsSuffix(entries[1..], now);
      } else {
        forall e | e in entries ensures now < e.deadline {
          var i :| 0 <= i < |entries| && entries[i] == e;
          assert i > 0 ==> SoonerOrSame(entries[0], entries[i]);
        }
        AllAlive(entries, now);
      }
    }
  }

  function EntriesOf(marks: History, ttl: real): (entries: seq<Entry>)
    ensures |entries| == |marks|
  {
    seq(|marks|, i requires 0 <= i < |marks| => Entry(marks[i].key, marks[i].at + ttl))
  }

  ghost predicate InTimeOrder(marks: History, last: real) {
    && (forall i, j | 0 <= i < j < |marks| :: marks[i].at <= marks[j].at)
    && (forall i | 0 <= i < |marks| :: marks[i].at <= last)
  }

  /** The store after marks up to `gone` are forgotten: the rest, in order, with unique keys;
      every forgotten mark is dead or pushed out by the cap. */
  ghost predicate Remembers(entries: seq<Entry>, h: History, gone: nat, limits: Limits, now: real) {
    && gone <= |h| && InTimeOrder(h, now)
    && entries == EntriesOf(h[gone..], limits.ttl)
    && UniqueKeys(entries)
    && (forall i | 0 <= i < gone :: h[i].at + limits.ttl <= now || i + limits.Cap() < |h|)
  }

  lemma RememberedInOrder(entries: seq<Entry>, h: History, gone: nat, limits: Limits, now: real)
    requires Remembers(entries, h, gone, limits, now)
    ensures Ordered(entries, SoonerOrSame)
  {
  }

  /** A purge forgets only the dead. */
  lemma PurgeForgetsTheDead(entries: seq<Entry>, h: History, gone: nat, limits: Limits, last: real, now: real)
    requires Remembers(entries, h, gone, limits, last) && last <= now
    ensures var more := DeadCount(entries, now);
      Remembers(Alive(entries, now), h, gone + more, limits, now)
  {
    RememberedInOrder(entries, h, gone, limits, last);
    AliveIsSuffix(entries, now);
    var more := DeadCount(entries, now);
    assert h[gone..][more..] == h[gone + more..];
    forall i | 0 <= i < gone + more
      ensures h[i].at + limits.ttl <= now || i + limits.Cap() < |h|
    {
      if gone <= i {
        assert entries[i - gone].deadline <= now;
      }
    }
  }

  /** After a purge a key is in the store exactly when the history says it is recent. */
  lemma StoredIffRecent(entries: seq<Entry>, h: History, gone: nat, limits: Limits, now: real, key: DedupeKey)
    requires Remembers(entries, h, gone, limits, now)
    requires |entries| <= limits.Cap() && forall e | e in entries :: now < e.deadline
    ensures HasKey(entries, key) <==> Recent(h, limits, key, now)
  {
    if HasKey(entries, key) {
      var i :| 0 <= i < |entries| && entries[i].key == key;
      assert entries[i] in entries;
      assert RecentAt(h, limits, gone + i, key, now);
    }
    if Recent(h, limits, key, now) {
      var i :| 0 <= i < |h| && RecentAt(h, limits, i, key, now);
      assert entries[i - gone].key == key;
    }
  }

  /** Forgetting the oldest entries beyond the cap. */
  lemma EvictForgetsTheOldest(entries: seq<Entry>, h: History, gone: nat, limits: Limits, now: real, n: nat)
    requires Remembers(entries, h, gone, limits, now)
    requires n <= |entries| && |entries| - n == limits.Cap()
    ensures Remembers(entries[n..], h, gone + n, limits, now)
  {
    assert h[gone..][n..] == h[gone + n..];
  }

  lemma NewMarkIsRemembered(entries: seq<Entry>, h: History, gone: nat, limits: Limits, now: real, key: DedupeKey)
    requires Remembers(entries, h, gone, limits, now) && !HasKey(entries, key)
    ensures Remembers(entries + [Entry(key, now + limits.ttl)], h + [Mark(key, now)], gone, limits, now)
  {
    var longer := h + [Mark(key, now)];
    assert longer[gone..] == h[gone..] + [Mark(key, now)];
  }

  // ---------------------------------------------------------------- the store

  /** The eviction `_enforce_max` performs once the purge was not enough. */
  function Evicted(entries: seq<Entry>, maxEntries: int): seq<Entry> {
    var sorted := Sort(entries, SoonerOrSame);
    var overflow := |entries| - maxEntries;
    var n := if overflow <= 0 then 0 else if overflow < |sorted| then overflow else |sorted|;
    Without(entries, KeySet(sorted[..n]))
  }

  function Enforced(entries: seq<Entry>, maxEntries: int, now: real): seq<Entry> {
    if |entries| <= maxEntries then entries
    else if |Alive(entries, now)| <= maxEntries then Alive(entries, now)
    else Evicted(Alive(entries, now), maxEntries)
  }

  /** Enforcing the cap leaves the last marks, and never more than the cap. */
  lemma EnforcedRemembers(entries: seq<Entry>, h: History, gone: nat, limits: Limits, now: real)
    returns (left: nat)
    requires Remembers(entries, h, gone, limits, now)
    ensures Remembers(Enforced(entries, limits.maxEntries, now), h, left, limits, now)
    ensures |Enforced(entries, limits.maxEntries, now)| <= limits.Cap()
  {
    hide EntriesOf, InTimeOrder, UniqueKeys, Alive, Without, Sort, KeySet;
    if |entries| <= limits.maxEntries {
      left := gone;
    } else {
      var alive := Alive(entries, now);
      left := gone + DeadCount(entries, now);
      PurgeForgetsTheDead(entries, h, gone, limits, now, now);
      if |alive| > limits.maxEntries {
        RememberedInOrder(alive, h, left, limits, now);
        OrderedIsFixed(alive, SoonerOrSame);
        var n := |alive| - limits.Cap();
        WithoutPrefix(alive, n);
        EvictForgetsTheOldest(alive, h, left, limits, now, n);
        left := left + n;
      }
    }
  }

  class AlchemyWebhookDedupeStore {
    const limits: Limits
    var expiresAt: seq<Entry>
    /** Every mark ever accepted, oldest first. */
    ghost var accepted: History
    ghost var gone: nat
    ghost var lastNow: real

    /** The dictionary is the tail of the accepted list, in order, at most the cap long. */
    ghost predicate Valid()
      reads this
    {
      && Remembers(expiresAt, accepted, gone, limits, lastNow)
      && |expiresAt| <= limits.Cap()
    }

    constructor (limits: Limits, ghost start: real)
      ensures Valid() && this.limits == limits && accepted == [] && lastNow == start
    {
      this.limits := limits;
      expiresAt := [];
      accepted, gone, lastNow := [], 0, start;
    }

    /** True for the first delivery within the TTL: false exactly for a key that was accepted
        less than a TTL ago and is among the most recently accepted. */
    method MarkIfNew(key: DedupeKey, now: real) returns (isNew: bool)
      requires Valid() && lastNow <= now
      modifies this
      ensures Valid() && lastNow == now
      ensures isNew <==> !Recent(old(accepted), limits, key, now)
      ensures accepted == After(old(accepted), limits, key, now)
    {
      hide EntriesOf, InTimeOrder, UniqueKeys, Alive, Without, Sort, KeySet, Recent, HasKey, Assign, Enforced;
      PurgeExpired(now);
      ghost var h := accepted;
      PurgeForgetsTheDead(old(expiresAt), h, gone, limits, lastNow, now);
      AliveBounds(old(expiresAt), now);
      gone := gone + DeadCount(old(expiresAt), now);
      lastNow := now;
      StoredIffRecent(expiresAt, h, gone, limits, now, key);
      var deadline := Deadline(expiresAt, key);
      if deadline.Some? && deadline.value > now {
        return false;
      }
      NewKeyGoesLast(expiresAt, key, now + limits.ttl);
      NewMarkIsRemembered(expiresAt, h, gone, limits, now, key);
      expiresAt := Assign(expiresAt, key, now + limits.ttl);
      accepted := h + [Mark(key, now)];
      ghost var left := EnforcedRemembers(expiresAt, accepted, gone, limits, now);
      EnforceMax(now);
      gone := left;
      isNew := true;
    }

    method PurgeExpired(now: real)
      requires UniqueKeys(expiresAt)
      modifies this`expiresAt
      ensures expiresAt == Alive(old(expiresAt), now)
    {
      var dead := Dead(expiresAt, now);
      DeadAreListed(expiresAt, now);
      DeadAreUnique(expiresAt, now);
      DeleteAll(dead);
      PurgedAreAlive(old(expiresAt), now);
    }

    method EnforceMax(now: real)
      requires UniqueKeys(expiresAt)
      modifies this`expiresAt
      ensures expiresAt == Enforced(old(expiresAt), limits.maxEntries, now)
    {
      if |expiresAt| <= limits.maxEntries {
        return;
      }
      PurgeExpired(now);
      if |expiresAt| <= limits.maxEntries {
        return;
      }
      AliveAreUnique(old(expiresAt), now);
      var sorted := Sort(expiresAt, SoonerOrSame);
      var overflow := |expiresAt| - limits.maxEntries;
      SortKeepsElements(expiresAt, SoonerOrSame);
      SortKeepsUnique(expiresAt);
      DeleteAll(sorted[..if overflow < |sorted| then overflow else |sorted|]);
    }

    /** The deletion loop of both: every key listed is there to be deleted. */
    method DeleteAll(doomed: seq<Entry>)
      requires UniqueKeys(doomed) && forall e | e in doomed :: e in expiresAt
      modifies this`expiresAt
      ensures expiresAt == Without(old(expiresAt), KeySet(doomed))
    {
      WithoutNothing(expiresAt);
      assert KeySet(doomed[..0]) == {};
      var i := 0;
      while i < |doomed|
        invariant 0 <= i <= |doomed|
        invariant expiresAt == Without(old(expiresAt), KeySet(doomed[..i]))
      {
        ghost var before := KeySet(doomed[..i]);
        WithoutKeeps(old(expiresAt), before, doomed[i]);
        assert doomed[i] in expiresAt;
        WithoutTwice(old(expiresAt), before, {doomed[i].key});
        assert doomed[..i + 1] == doomed[..i] + [doomed[i]];
        assert KeySet(doomed[..i + 1]) == before + {doomed[i].key};
        expiresAt := Delete(expiresAt, doomed[i].key);
        i := i + 1;
      }
      assert doomed[..i] == doomed;
    }
  }

  lemma {:induction false} AliveBounds(entries: seq<Entry>, now: real)
    ensures |Alive(entries, now)| <= |entries|
    ensures forall e :: e in Alive(entries, now) <==> e in entries && now < e.deadline
  {
    if entries != [] {
      AliveBounds(entries[1..], now);
      assert entries == [entries[0]] + entries[1..];
    }
  }

  lemma {:induction false} AliveAreUnique(entries: seq<Entry>, now: real)
    requires UniqueKeys(entries)
    ensures UniqueKeys(Alive(entries, now))
  {
    if entries != [] {
      var rest := entries[1..];
      assert forall i | 0 <= i < |rest| :: rest[i] == entries[i + 1];
      AliveAreUnique(rest, now);
      AliveBounds(rest, now);
      var alive := Alive(rest, now);
      forall i | 0 <= i < |alive| ensures alive[i].key != entries[0].key {
        assert alive[i] in rest;
      }
    }
  }

  lemma {:induction false} InsertKeepsUnique(x: Entry, s: seq<Entry>)
    requires UniqueKeys(s) && forall e | e in s :: e.key != x.key
    ensures UniqueKeys(Insert(x, s, SoonerOrSame))
  {
    if s != [] && !SoonerOrSame(x, s[0]) {
      var rest := s[1..];
      assert forall i | 0 <= i < |rest| :: rest[i] == s[i + 1];
      assert forall e | e in rest :: e in s;
      InsertKeepsUnique(x, rest);
      InsertPermutes(x, rest, SoonerOrSame);
      var tail := Insert(x, rest, SoonerOrSame);
      forall j | 0 <= j < |tail| ensures tail[j].key != s[0].key {
        assert tail[j] in multiset(tail);
        assert tail[j] == x || tail[j] in rest;
      }
    }
  }

  lemma {:induction false} SortKeepsUnique(s: seq<Entry>)
    requires UniqueKeys(s)
    ensures UniqueKeys(Sort(s, SoonerOrSame))
  {
    if s != [] {
      var rest := s[1..];
      assert forall i | 0 <= i < |rest| :: rest[i] == s[i + 1];
      SortKeepsUnique(rest);
      SortKeepsElements(rest, SoonerOrSame);
      InsertKeepsUnique(s[0], Sort(rest, SoonerOrSame));
    }
  }
}
