/** What the webhook dedupe store promises, said over the history of accepted marks. */
module DedupeHistory {

  /** webhook id, event id, transaction hash, log index */
  type DedupeKey = (string, string, string, string)

  datatype Mark = Mark(key: DedupeKey, at: real)

  datatype Limits = Limits(ttl: real, maxEntries: int) {
    function Cap(): nat {
      if maxEntries > 0 then maxEntries else 0
    }
  }

  type History = seq<Mark>

  /** The key was accepted less than a TTL ago and is among the most recent marks. */
  predicate RecentAt(h: History, limits: Limits, i: nat, key: DedupeKey, now: real) {
    i < |h| && h[i].key == key && now < h[i].at + limits.ttl && |h| <= i + limits.Cap()
  }

  predicate Recent(h: History, limits: Limits, key: DedupeKey, now: real) {
    exists i | 0 <= i < |h| :: RecentAt(h, limits, i, key, now)
  }

  function After(h: History, limits: Limits, key: DedupeKey, now: real): History {
    if Recent(h, limits, key, now) then h else h + [Mark(key, now)]
  }

  datatype Call = Call(key: DedupeKey, now: real)

  function AfterAll(h: History, limits: Limits, calls: seq<Call>): History
    decreases |calls|
  {
    if calls == [] then h
    else
      var before := AfterAll(h, limits, calls[..|calls| - 1]);
      After(before, limits, calls[|calls| - 1].key, calls[|calls| - 1].now)
  }

  lemma AfterOne(h: History, limits: Limits, call: Call)
    ensures AfterAll(h, limits, [call]) == After(h, limits, call.key, call.now)
  {
    assert [call][..|[call]| - 1] == [];
  }

  lemma {:induction false} HistoryGrows(h: History, limits: Limits, calls: seq<Call>)
    ensures h <= AfterAll(h, limits, calls)
  {
    if calls != [] {
      HistoryGrows(h, limits, calls[..|calls| - 1]);
    }
  }

  /** Two marks of one key are a TTL apart, or at least the cap lies between them. */
  ghost predicate Spaced(h: History, limits: Limits) {
    forall i, j | 0 <= i < j < |h| && h[i].key == h[j].key ::
      h[i].at + limits.ttl <= h[j].at || i + limits.Cap() <= j
  }

  lemma AfterKeepsSpaced(h: History, limits: Limits, key: DedupeKey, now: real)
    requires Spaced(h, limits)
    ensures Spaced(After(h, limits, key, now), limits)
  {
    if !Recent(h, limits, key, now) {
      forall i | 0 <= i < |h| && h[i].key == key
        ensures h[i].at + limits.ttl <= now || i + limits.Cap() <= |h|
      {
        assert !RecentAt(h, limits, i, key, now);
      }
    }
  }

  /** Whatever is delivered, in whatever order: nothing is accepted twice within its TTL
      unless as many other marks as the store may hold came in between. */
  lemma {:induction false} NothingTwiceWithinTtl(limits: Limits, calls: seq<Call>)
    ensures Spaced(AfterAll([], limits, calls), limits)
  {
    if calls != [] {
      var before, last := calls[..|calls| - 1], calls[|calls| - 1];
      NothingTwiceWithinTtl(limits, before);
      AfterKeepsSpaced(AfterAll([], limits, before), limits, last.key, last.now);
    }
  }

  /** Nothing is lost either: every key ever offered has been accepted at least once. */
  lemma {:induction false} EveryKeyIsAccepted(limits: Limits, calls: seq<Call>, k: nat)
    requires k < |calls|
    ensures exists m :: m in AfterAll([], limits, calls) && m.key == calls[k].key
  {
    var before, last := calls[..|calls| - 1], calls[|calls| - 1];
    var h := AfterAll([], limits, before);
    if k < |before| {
      EveryKeyIsAccepted(limits, before, k);
      var m :| m in h && m.key == calls[k].key;
      assert m in AfterAll([], limits, calls);
    } else if Recent(h, limits, last.key, last.now) {
      var i :| 0 <= i < |h| && RecentAt(h, limits, i, last.key, last.now);
      assert h[i] in AfterAll([], limits, calls);
    } else {
      assert Mark(last.key, last.now) in AfterAll([], limits, calls);
    }
  }

  // ---------------------------------------------------------------- redelivery

  function KeysOf(calls: seq<Call>): set<DedupeKey> {
    set c | c in calls :: c.key
  }

  /** All calls lie inside one TTL, and they bring no more distinct keys than the store may
      hold. */
  predicate Window(limits: Limits, calls: seq<Call>, start: real) {
    && (forall c | c in calls :: start <= c.now < start + limits.ttl)
    && |KeysOf(calls)| <= limits.Cap()
  }

  function MarkedKeys(h: History): set<DedupeKey> {
    set m | m in h :: m.key
  }

  ghost predicate Distinct(h: History) {
    forall i, j | 0 <= i < j < |h| :: h[i].key != h[j].key
  }

  lemma {:induction false} DistinctCounts(h: History)
    requires Distinct(h)
    ensures |MarkedKeys(h)| == |h|
  {
    if h != [] {
      var before := h[..|h| - 1];
      DistinctCounts(before);
      assert h == before + [h[|h| - 1]];
      assert MarkedKeys(h) == MarkedKeys(before) + {h[|h| - 1].key};
    }
  }

  lemma SubsetCounts(a: set<DedupeKey>, b: set<DedupeKey>)
    requires a <= b
    ensures |a| <= |b|
  {
    assert b == a + (b - a);
  }

  /** Inside a window no mark made since it opened is forgotten, so none is made twice. */
  lemma {:induction false} WindowMarksOnce(h: History, limits: Limits, calls: seq<Call>, start: real)
    requires Window(limits, calls, start)
    ensures var after := AfterAll(h, limits, calls);
      && h <= after
      && Distinct(after[|h|..])
      && MarkedKeys(after[|h|..]) <= KeysOf(calls)
      && (forall m | m in after[|h|..] :: start <= m.at)
  {
    if calls != [] {
      var before, last := calls[..|calls| - 1], calls[|calls| - 1];
      assert calls == before + [last];
      assert KeysOf(before) <= KeysOf(calls);
      SubsetCounts(KeysOf(before), KeysOf(calls));
      WindowMarksOnce(h, limits, before, start);
      var mid := AfterAll(h, limits, before);
      var added := mid[|h|..];
      DistinctCounts(added);
      SubsetCounts(MarkedKeys(added), KeysOf(before));
      forall i | 0 <= i < |added| && added[i].key == last.key
        ensures RecentAt(mid, limits, |h| + i, last.key, last.now)
      {
        assert added[i] in added;
      }
      var after := AfterAll(h, limits, calls);
      if !Recent(mid, limits, last.key, last.now) {
        assert after[|h|..] == added + [Mark(last.key, last.now)];
        assert last.key in KeysOf(calls);
      }
    }
  }

  ghost predicate MarkedSince(h: History, after: History, key: DedupeKey) {
    exists i | |h| <= i < |after| :: after[i].key == key
  }

  /** A mark that is fresh enough later was fresh enough before anything was added. */
  lemma OlderMarkWasRecent(h: History, after: History, limits: Limits, key: DedupeKey, start: real, now: real)
    requires h <= after && start <= now
    requires Recent(after, limits, key, now)
    ensures Recent(h, limits, key, start) || MarkedSince(h, after, key)
  {
    var i :| 0 <= i < |after| && RecentAt(after, limits, i, key, now);
    if i < |h| {
      assert RecentAt(h, limits, i, key, start);
    }
  }

  /** A key that was not remembered when the calls began is marked by the first of them that
      brings it. */
  lemma {:induction false} CalledKeyIsMarked(h: History, limits: Limits, calls: seq<Call>, start: real, k: nat)
    requires k < |calls| && forall c | c in calls :: start <= c.now
    requires !Recent(h, limits, calls[k].key, start)
    ensures MarkedSince(h, AfterAll(h, limits, calls), calls[k].key)
  {
    hide Recent;
    var before, last := calls[..|calls| - 1], calls[|calls| - 1];
    var mid, after := AfterAll(h, limits, before), AfterAll(h, limits, calls);
    HistoryGrows(h, limits, before);
    if k < |before| {
      CalledKeyIsMarked(h, limits, before, start, k);
      var i :| |h| <= i < |mid| && mid[i].key == calls[k].key;
      assert after[i].key == calls[k].key;
    } else if Recent(mid, limits, last.key, last.now) {
      OlderMarkWasRecent(h, mid, limits, last.key, start, last.now);
    } else {
      assert after[|mid|].key == last.key;
    }
  }

  /** Redelivering a key inside the TTL, with no more distinct keys since the first delivery
      began than the store may hold, is a duplicate: provided the key was not already
      remembered when the first delivery began. */
  lemma RedeliveryIsDuplicate(h: History, limits: Limits, calls: seq<Call>, start: real, k: nat, now: real)
    requires Window(limits, calls, start) && k < |calls|
    requires !Recent(h, limits, calls[k].key, start)
    requires start <= now < start + limits.ttl
    ensures Recent(AfterAll(h, limits, calls), limits, calls[k].key, now)
  {
    var after := AfterAll(h, limits, calls);
    WindowMarksOnce(h, limits, calls, start);
    CalledKeyIsMarked(h, limits, calls, start, k);
    var added := after[|h|..];
    DistinctCounts(added);
    SubsetCounts(MarkedKeys(added), KeysOf(calls));
    var i :| |h| <= i < |after| && after[i].key == calls[k].key;
    assert after[i] == added[i - |h|] && added[i - |h|] in added;
    assert RecentAt(after, limits, i, calls[k].key, now);
  }

  lemma {:induction false} OtherKeysLeaveMarks(h: History, limits: Limits, calls: seq<Call>, key: DedupeKey)
    requires key !in KeysOf(calls)
    ensures var after := AfterAll(h, limits, calls);
      h <= after && forall i | |h| <= i < |after| :: after[i].key != key
  {
    if calls != [] {
      var before, last := calls[..|calls| - 1], calls[|calls| - 1];
      assert calls == before + [last];
      assert last.key in KeysOf(calls) && KeysOf(before) <= KeysOf(calls);
      OtherKeysLeaveMarks(h, limits, before, key);
    }
  }

  /** The proviso is exact. With the key delivered once, other keys in between, and then
      delivered again inside the window: it is emitted again if and only if its first
      delivery here was a duplicate of an older mark that has lapsed or been pushed out
      since. */
  lemma RedeliveryEmitsExactly(h: History, limits: Limits, first: Call, others: seq<Call>, now: real)
    requires Window(limits, [first] + others, first.now)
    requires first.key !in KeysOf(others) && first.now <= now < first.now + limits.ttl
    ensures var before := AfterAll(h, limits, [first] + others);
      !Recent(before, limits, first.key, now) <==>
      Recent(h, limits, first.key, first.now)
      && forall i | 0 <= i < |h| && h[i].key == first.key ::
           h[i].at + limits.ttl <= now || i + limits.Cap() < |before|
  {
    var calls := [first] + others;
    var before := AfterAll(h, limits, calls);
    if !Recent(h, limits, first.key, first.now) {
      RedeliveryIsDuplicate(h, limits, calls, first.now, 0, now);
    } else {
      AfterAllSplits(h, limits, [first], others);
      AfterOne(h, limits, first);
      OtherKeysLeaveMarks(h, limits, others, first.key);
      forall i | 0 <= i < |before|
        ensures RecentAt(before, limits, i, first.key, now) <==>
                i < |h| && h[i].key == first.key && now < h[i].at + limits.ttl && |before| <= i + limits.Cap()
      {
      }
    }
  }

  lemma {:induction false} AfterAllSplits(h: History, limits: Limits, a: seq<Call>, b: seq<Call>)
    ensures AfterAll(h, limits, a + b) == AfterAll(AfterAll(h, limits, a), limits, b)
  {
    if b == [] {
      assert a + b == a;
    } else {
      AfterAllSplits(h, limits, a, b[..|b| - 1]);
      assert (a + b)[..|a + b| - 1] == a + b[..|b| - 1];
    }
  }

  // ---------------------------------------------------------------- the caller's condition

  /** Whatever is called after `first` inside its window, `first.key` stays a duplicate to the
      end of the TTL. */
  ghost predicate StaysDuplicate(h: History, limits: Limits, first: Call) {
    forall others, now |
      Window(limits, [first] + others, first.now) && first.now <= now < first.now + limits.ttl ::
      Recent(AfterAll(h, limits, [first] + others), limits, first.key, now)
  }

  /** The key was marked at this very moment, and nothing was marked since. */
  predicate JustMarked(h: History, first: Call) {
    h != [] && h[|h| - 1] == Mark(first.key, first.now)
  }

  ghost predicate InOrderOfTime(h: History, last: real) {
    && (forall i, j | 0 <= i < j < |h| :: h[i].at <= h[j].at)
    && (forall i | 0 <= i < |h| :: h[i].at <= last)
  }

  lemma JustMarkedStays(h: History, limits: Limits, first: Call, others: seq<Call>, now: real)
    requires JustMarked(h, first) && Window(limits, [first] + others, first.now)
    requires first.now <= now < first.now + limits.ttl
    ensures Recent(AfterAll(h, limits, [first] + others), limits, first.key, now)
  {
    var calls := [first] + others;
    var after := AfterAll(h, limits, calls);
    WindowMarksOnce(h, limits, calls, first.now);
    var added := after[|h|..];
    DistinctCounts(added);
    assert first in calls && first.key in KeysOf(calls);
    if first.key in MarkedKeys(added) {
      SubsetCounts(MarkedKeys(added), KeysOf(calls));
      var m :| m in added && m.key == first.key;
      var i :| 0 <= i < |added| && added[i] == m;
      assert RecentAt(after, limits, |h| + i, first.key, now);
    } else {
      SubsetCounts(MarkedKeys(added), KeysOf(calls) - {first.key});
      assert after[|h| - 1] == h[|h| - 1];
      assert RecentAt(after, limits, |h| - 1, first.key, now);
    }
  }

  // The latest remembered mark of a key.

  lemma {:induction false} LatestRecent(h: History, limits: Limits, key: DedupeKey, now: real, n: nat) returns (i: nat)
    requires n <= |h| && exists k | 0 <= k < n :: RecentAt(h, limits, k, key, now)
    ensures i < n && RecentAt(h, limits, i, key, now)
    ensures forall k | i < k < n :: !RecentAt(h, limits, k, key, now)
    decreases n
  {
    if RecentAt(h, limits, n - 1, key, now) {
      i := n - 1;
    } else {
      i := LatestRecent(h, limits, key, now, n - 1);
    }
  }

  /** A mark made before `first` lapses inside the window of `first`. */
  lemma OlderMarkLapses(h: History, limits: Limits, first: Call, i: nat)
    requires InOrderOfTime(h, first.now) && RecentAt(h, limits, i, first.key, first.now) && h[i].at < first.now
    requires forall k | i < k < |h| :: !RecentAt(h, limits, k, first.key, first.now)
    ensures !StaysDuplicate(h, limits, first)
  {
    var now := h[i].at + limits.ttl;
    assert Recent(h, limits, first.key, first.now);
    AfterOne(h, limits, first);
    assert [first] + [] == [first] && KeysOf([first]) == {first.key};
    forall k | 0 <= k < |h|
      ensures !RecentAt(h, limits, k, first.key, now)
    {
      if k > i {
        assert !RecentAt(h, limits, k, first.key, first.now);
      }
    }
    assert Window(limits, [first] + [], first.now);
    assert !Recent(AfterAll(h, limits, [first] + []), limits, first.key, now);
  }

  // Keys that no history holds.

  function Longest(h: History): nat {
    if h == [] then 0
    else
      var before, length := Longest(h[..|h| - 1]), |h[|h| - 1].key.0|;
      if length > before then length else before
  }

  lemma {:induction false} LongestBounds(h: History)
    ensures forall m | m in h :: |m.key.0| <= Longest(h)
  {
    if h != [] {
      LongestBounds(h[..|h| - 1]);
      assert h == h[..|h| - 1] + [h[|h| - 1]];
    }
  }

  function FreshKey(length: nat): DedupeKey {
    (seq(length, _ => '0'), "", "", "")
  }

  /** `n` calls at one moment, each with a longer key. */
  function FreshCalls(base: nat, n: nat, now: real): (calls: seq<Call>)
    ensures |calls| == n
    ensures forall i | 0 <= i < n :: calls[i] == Call(FreshKey(base + i), now)
  {
    seq(n, i requires 0 <= i < n => Call(FreshKey(base + i), now))
  }

  lemma LongKeysAreNew(h: History, limits: Limits, length: nat, now: real)
    requires forall m | m in h :: |m.key.0| < length
    ensures !Recent(h, limits, FreshKey(length), now)
  {
    forall i | 0 <= i < |h|
      ensures !RecentAt(h, limits, i, FreshKey(length), now)
    {
      assert h[i] in h && |FreshKey(length).0| == length;
    }
  }

  lemma {:induction false} FreshCallsAreMarked(h: History, limits: Limits, base: nat, n: nat, now: real)
    requires forall m | m in h :: |m.key.0| < base
    ensures var after := AfterAll(h, limits, FreshCalls(base, n, now));
      h <= after && |after| == |h| + n && forall m | m in after :: |m.key.0| < base + n
  {
    var calls := FreshCalls(base, n, now);
    if n > 0 {
      FreshCallsAreMarked(h, limits, base, n - 1, now);
      assert calls[..n - 1] == FreshCalls(base, n - 1, now);
      LongKeysAreNew(AfterAll(h, limits, calls[..n - 1]), limits, base + n - 1, now);
    }
  }

  /** A mark that is not the last one is pushed out by a cap of other keys. */
  lemma NonLastMarkIsPushedOut(h: History, limits: Limits, first: Call, i: nat)
    requires i < |h| - 1 && h[i].at <= first.now && RecentAt(h, limits, i, first.key, first.now)
    requires forall k | i < k < |h| :: !RecentAt(h, limits, k, first.key, first.now)
    ensures !StaysDuplicate(h, limits, first)
  {
    var longest := if |first.key.0| > Longest(h) then |first.key.0| else Longest(h);
    var base, n := longest + 1, limits.Cap() - 1;
    var others := FreshCalls(base, n, first.now);
    LongestBounds(h);
    assert Recent(h, limits, first.key, first.now);
    AfterOne(h, limits, first);
    AfterAllSplits(h, limits, [first], others);
    FreshCallsAreMarked(h, limits, base, n, first.now);
    var before := AfterAll(h, limits, [first] + others);
    OtherKeysLeaveMarks(h, limits, others, first.key);
    forall k | 0 <= k < |before|
      ensures !RecentAt(before, limits, k, first.key, first.now)
    {
      if i < k < |h| {
        assert !RecentAt(h, limits, k, first.key, first.now);
      }
    }
    FreshWindow(limits, first, base, n);
    assert !Recent(before, limits, first.key, first.now);
  }

  lemma FreshWindow(limits: Limits, first: Call, base: nat, n: nat)
    requires limits.ttl > 0.0 && n + 1 == limits.Cap()
    ensures Window(limits, [first] + FreshCalls(base, n, first.now), first.now)
  {
    KeysAtMost([first] + FreshCalls(base, n, first.now));
  }

  lemma {:induction false} KeysAtMost(calls: seq<Call>)
    ensures |KeysOf(calls)| <= |calls|
  {
    if calls != [] {
      var before, last := calls[..|calls| - 1], calls[|calls| - 1];
      KeysAtMost(before);
      assert calls == before + [last];
      assert KeysOf(calls) == KeysOf(before) + {last.key};
    }
  }

  /** What a caller can check before the first delivery: no redelivery inside the window
      emits, whatever comes in between, if and only if the key is not remembered then, or was
      marked at that very moment with nothing marked since. */
  lemma StaysDuplicateExactly(h: History, limits: Limits, first: Call)
    requires InOrderOfTime(h, first.now)
    ensures StaysDuplicate(h, limits, first) <==> !Recent(h, limits, first.key, first.now) || JustMarked(h, first)
  {
    if !Recent(h, limits, first.key, first.now) || JustMarked(h, first) {
      forall others, now |
        Window(limits, [first] + others, first.now) && first.now <= now < first.now + limits.ttl
        ensures Recent(AfterAll(h, limits, [first] + others), limits, first.key, now)
      {
        if JustMarked(h, first) {
          JustMarkedStays(h, limits, first, others, now);
        } else {
          RedeliveryIsDuplicate(h, limits, [first] + others, first.now, 0, now);
        }
      }
    } else {
      var i := LatestRecent(h, limits, first.key, first.now, |h|);
      if h[i].at < first.now {
        OlderMarkLapses(h, limits, first, i);
      } else {
        NonLastMarkIsPushedOut(h, limits, first, i);
      }
    }
  }

  /** Without the proviso the claim fails: delivered at 0, 6 and 12 under a TTL of 10, the
      third delivery is within ten of the second and is emitted nonetheless. */
  lemma RedeliveryCanEmit(key: DedupeKey)
    ensures var limits := Limits(10.0, 50000);
      var h := AfterAll([], limits, [Call(key, 0.0)]);
      var again := AfterAll(h, limits, [Call(key, 6.0)]);
      Window(limits, [Call(key, 6.0)], 6.0) && !Recent(again, limits, key, 12.0)
  {
    var limits := Limits(10.0, 50000);
    AfterOne([], limits, Call(key, 0.0));
    var h := AfterAll([], limits, [Call(key, 0.0)]);
    assert h == [Mark(key, 0.0)];
    assert RecentAt(h, limits, 0, key, 6.0);
    AfterOne(h, limits, Call(key, 6.0));
    assert KeysOf([Call(key, 6.0)]) == {key};
  }
}
