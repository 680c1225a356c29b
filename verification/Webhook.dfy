/** The address-activity webhook graph (mercury/graph/webhook_graph.py): filter, dedupe, emit. */
module Webhook {
  import opened Outcomes
  import opened Text
  import opened DedupeHistory
  import opened DedupeStore
  import opened Transactions

  datatype Alert = Alert(txHash: string, logIndex: string, toAddress: Option<string>, details: Metadata)

  function KeyOf(webhookId: string, eventId: string, alert: Alert): DedupeKey {
    (webhookId, eventId, alert.txHash, alert.logIndex)
  }

  /** The watched addresses in the form alerts carry them; blank ones are dropped. */
  function WatchSet(watched: seq<string>): set<string> {
    set w | w in watched && Lower(Strip(w)) != "" :: Lower(Strip(w))
  }

  predicate IsWatched(alert: Alert, watch: set<string>) {
    alert.toAddress.Some? && alert.toAddress.value in watch
  }

  /** `filter_incoming_for_watched`: with nothing watched, everything is kept. */
  function FilterIncoming(alerts: seq<Alert>, watched: seq<string>): seq<Alert> {
    var watch := WatchSet(watched);
    if watch == {} then alerts else WatchedOnly(alerts, watch)
  }

  function WatchedOnly(alerts: seq<Alert>, watch: set<string>): seq<Alert> {
    if alerts == [] then []
    else
      var n := |alerts| - 1;
      WatchedOnly(alerts[..n], watch) + if IsWatched(alerts[n], watch) then [alerts[n]] else []
  }

  /** Some watched address that is more than blanks is the one the alert goes to, in lower case
      and without the blanks around it; or there is none to watch for. */
  ghost predicate Relevant(alert: Alert, watched: seq<string>) {
    || (forall w | w in watched :: Strip(w) == "")
    || (alert.toAddress.Some? && alert.toAddress.value != ""
        && exists w :: w in watched && Lower(Strip(w)) == alert.toAddress.value)
  }

  lemma RelevantIsWatched(alert: Alert, watched: seq<string>)
    ensures Relevant(alert, watched) <==> WatchSet(watched) == {} || IsWatched(alert, WatchSet(watched))
  {
    hide Lower, Strip;
    assert forall s :: |Lower(s)| == |s|;
    assert forall w | w in watched && Strip(w) != "" :: Lower(Strip(w)) in WatchSet(watched);
    if WatchSet(watched) != {} {
      var x :| x in WatchSet(watched);
      var w :| w in watched && Lower(Strip(w)) != "" && Lower(Strip(w)) == x;
      assert Strip(w) != "";
    }
  }

  /** The filter keeps exactly the relevant alerts, each as often as it came, in their order. */
  lemma FilterKeepsTheWatched(alerts: seq<Alert>, watched: seq<string>)
    ensures forall a :: multiset(FilterIncoming(alerts, watched))[a]
                        == if Relevant(a, watched) then multiset(alerts)[a] else 0
    ensures InOrder(FilterIncoming(alerts, watched), alerts) && |FilterIncoming(alerts, watched)| <= |alerts|
  {
    hide Relevant, WatchSet, IsWatched, InOrder;
    forall a ensures Relevant(a, watched) <==> WatchSet(watched) == {} || IsWatched(a, WatchSet(watched)) {
      RelevantIsWatched(a, watched);
    }
    if WatchSet(watched) == {} {
      WholeIsInOrder(alerts);
    } else {
      WatchedOnlyKeeps(alerts, WatchSet(watched));
    }
  }

  lemma {:induction false} WholeIsInOrder<T>(s: seq<T>)
    ensures InOrder(s, s)
  {
    if s != [] {
      WholeIsInOrder(s[..|s| - 1]);
    }
  }

  lemma WatchedOnlyKeeps(alerts: seq<Alert>, watch: set<string>)
    ensures forall a :: multiset(WatchedOnly(alerts, watch))[a] == if IsWatched(a, watch) then multiset(alerts)[a] else 0
    ensures InOrder(WatchedOnly(alerts, watch), alerts) && |WatchedOnly(alerts, watch)| <= |alerts|
  {
    forall a
      ensures multiset(WatchedOnly(alerts, watch))[a] == if IsWatched(a, watch) then multiset(alerts)[a] else 0
    {
      WatchedOnlyCounts(alerts, watch, a);
    }
    WatchedOnlyInOrder(alerts, watch);
  }

  lemma {:induction false} WatchedOnlyCounts(alerts: seq<Alert>, watch: set<string>, a: Alert)
    ensures multiset(WatchedOnly(alerts, watch))[a] == if IsWatched(a, watch) then multiset(alerts)[a] else 0
  {
    hide IsWatched;
    if alerts != [] {
      var n := |alerts| - 1;
      WatchedOnlyCounts(alerts[..n], watch, a);
      assert alerts == alerts[..n] + [alerts[n]];
    }
  }

  lemma {:induction false} WatchedOnlyInOrder(alerts: seq<Alert>, watch: set<string>)
    ensures InOrder(WatchedOnly(alerts, watch), alerts) && |WatchedOnly(alerts, watch)| <= |alerts|
  {
    hide IsWatched, InOrder;
    if alerts == [] {
      WholeIsInOrder(alerts);
    } else {
      var n := |alerts| - 1;
      WatchedOnlyInOrder(alerts[..n], watch);
      assert alerts == alerts[..n] + [alerts[n]];
      InOrderGrows(WatchedOnly(alerts[..n], watch), alerts[..n], alerts[n]);
      assert WatchedOnly(alerts[..n], watch) + [] == WatchedOnly(alerts[..n], watch);
    }
  }

  lemma InOrderGrows<T>(part: seq<T>, whole: seq<T>, x: T)
    requires InOrder(part, whole)
    ensures InOrder(part, whole + [x]) && InOrder(part + [x], whole + [x])
  {
    assert (whole + [x])[..|whole|] == whole && (part + [x])[..|part|] == part;
  }

  /** One delivery: what arrives at the dedupe node, and when each alert is looked up. */
  datatype Delivery = Delivery(webhookId: string, eventId: string, alerts: seq<Alert>, times: seq<real>) {
    predicate Timed(start: real) {
      && |times| == |alerts|
      && (forall i | 0 <= i < |times| :: start <= times[i])
      && (forall i, j | 0 <= i < j < |times| :: times[i] <= times[j])
    }

    function Calls(): seq<Call>
      requires |times| == |alerts|
    {
      seq(|alerts|, i requires 0 <= i < |alerts| => Call(KeyOf(webhookId, eventId, alerts[i]), times[i]))
    }
  }

  /** Which alerts are new, said over the history. */
  function Emitted(h: History, limits: Limits, alerts: seq<Alert>, calls: seq<Call>): seq<Alert>
    requires |calls| == |alerts|
    decreases |alerts|
  {
    if alerts == [] then []
    else
      var n := |alerts| - 1;
      var before := AfterAll(h, limits, calls[..n]);
      Emitted(h, limits, alerts[..n], calls[..n])
      + if Recent(before, limits, calls[n].key, calls[n].now) then [] else [alerts[n]]
  }

  /** `part` is `whole` with elements left out. */
  ghost predicate InOrder<T>(part: seq<T>, whole: seq<T>) {
    part == [] || (whole != [] && ((part[|part| - 1] == whole[|whole| - 1] && InOrder(part[..|part| - 1], whole[..|whole| - 1]))
                                   || InOrder(part, whole[..|whole| - 1])))
  }

  lemma {:induction false} EmittedInOrder(h: History, limits: Limits, alerts: seq<Alert>, calls: seq<Call>)
    requires |calls| == |alerts|
    ensures InOrder(Emitted(h, limits, alerts, calls), alerts)
    decreases |alerts|
  {
    if alerts != [] {
      var n := |alerts| - 1;
      EmittedInOrder(h, limits, alerts[..n], calls[..n]);
      var earlier := Emitted(h, limits, alerts[..n], calls[..n]);
      assert (earlier + [alerts[n]])[..|earlier|] == earlier;
      assert earlier + [] == earlier;
    }
  }

  lemma AfterNothing(h: History, limits: Limits)
    ensures AfterAll(h, limits, []) == h
  {
  }

  lemma NothingYet(h: History, limits: Limits)
    ensures AfterAll(h, limits, []) == h && Emitted(h, limits, [], []) == []
  {
  }

  lemma OneMore(h: History, limits: Limits, alerts: seq<Alert>, calls: seq<Call>, i: nat)
    requires |calls| == |alerts| && i < |alerts|
    ensures var before, call := AfterAll(h, limits, calls[..i]), calls[i];
      && AfterAll(h, limits, calls[..i + 1]) == After(before, limits, call.key, call.now)
      && Emitted(h, limits, alerts[..i + 1], calls[..i + 1])
         == Emitted(h, limits, alerts[..i], calls[..i])
            + if Recent(before, limits, call.key, call.now) then [] else [alerts[i]]
  {
    hide Recent;
    assert calls[..i + 1][..i] == calls[..i] && alerts[..i + 1][..i] == alerts[..i];
  }

  /** The dedupe node. What it emits and what it suppresses add up to what it was given. */
  method Dedupe(store: AlchemyWebhookDedupeStore, d: Delivery) returns (emitted: seq<Alert>, duplicates: nat)
    requires store.Valid() && d.Timed(store.lastNow)
    modifies store
    ensures store.Valid()
    ensures store.accepted == AfterAll(old(store.accepted), store.limits, d.Calls())
    ensures emitted == Emitted(old(store.accepted), store.limits, d.alerts, d.Calls())
    ensures |emitted| + duplicates == |d.alerts|
    ensures store.lastNow == if d.times == [] then old(store.lastNow) else d.times[|d.times| - 1]
  {
    hide AfterAll, Emitted, Recent, Remembers;
    ghost var h, calls := store.accepted, d.Calls();
    NothingYet(h, store.limits);
    emitted, duplicates := [], 0;
    var i := 0;
    while i < |d.alerts|
      invariant 0 <= i <= |d.alerts|
      invariant store.Valid() && store.lastNow == if i == 0 then old(store.lastNow) else d.times[i - 1]
      invariant store.accepted == AfterAll(h, store.limits, calls[..i])
      invariant emitted == Emitted(h, store.limits, d.alerts[..i], calls[..i])
      invariant |emitted| + duplicates == i
    {
      var isNew := store.MarkIfNew(KeyOf(d.webhookId, d.eventId, d.alerts[i]), d.times[i]);
      OneMore(h, store.limits, d.alerts, calls, i);
      if isNew {
        emitted := emitted + [d.alerts[i]];
      } else {
        duplicates := duplicates + 1;
      }
      i := i + 1;
    }
    assert calls[..i] == calls && d.alerts[..i] == d.alerts;
  }

  /** What a delivery emits is what it adds to the history, alert by alert: so whatever the
      history says of marks holds of emitted alerts. */
  lemma {:induction false} EmittedIsMarked(h: History, limits: Limits, d: Delivery)
    requires |d.times| == |d.alerts|
    ensures var emitted, after := Emitted(h, limits, d.alerts, d.Calls()), AfterAll(h, limits, d.Calls());
      && h <= after && |emitted| == |after| - |h|
      && forall i | 0 <= i < |emitted| :: after[|h| + i].key == KeyOf(d.webhookId, d.eventId, emitted[i])
    decreases |d.alerts|
  {
    if d.alerts != [] {
      var n := |d.alerts| - 1;
      var shorter := d.(alerts := d.alerts[..n], times := d.times[..n]);
      EmittedIsMarked(h, limits, shorter);
      assert d.Calls()[..n] == shorter.Calls();
    }
  }

  /** What the graph reports about one delivery. */
  datatype EmitSummary = EmitSummary(
    normalizedCount: nat, filteredCount: nat, processed: nat, duplicateCount: nat, alerts: seq<Alert>)

  /** Filter, dedupe, emit. Of the alerts that arrive, those that are relevant are either
      emitted or counted as duplicates, and only relevant ones are emitted, in order. */
  method HandleActivity(store: AlchemyWebhookDedupeStore, webhookId: string, eventId: string, normalized: seq<Alert>,
                        watched: seq<string>, times: seq<real>) returns (summary: EmitSummary)
    requires store.Valid() && Delivery(webhookId, eventId, FilterIncoming(normalized, watched), times).Timed(store.lastNow)
    modifies store
    ensures store.Valid()
    ensures var filtered := FilterIncoming(normalized, watched);
      var calls := Delivery(webhookId, eventId, filtered, times).Calls();
      && store.accepted == AfterAll(old(store.accepted), store.limits, calls)
      && summary.alerts == Emitted(old(store.accepted), store.limits, filtered, calls)
      && InOrder(summary.alerts, filtered)
      && summary.filteredCount == |filtered|
    ensures summary.processed == |summary.alerts| && summary.normalizedCount == |normalized|
    ensures summary.processed + summary.duplicateCount == summary.filteredCount <= summary.normalizedCount
  {
    var filtered := FilterIncoming(normalized, watched);
    FilterKeepsTheWatched(normalized, watched);
    var delivery := Delivery(webhookId, eventId, filtered, times);
    EmittedInOrder(store.accepted, store.limits, filtered, delivery.Calls());
    var emitted, duplicates := Dedupe(store, delivery);
    summary := EmitSummary(|normalized|, |filtered|, |emitted|, duplicates, emitted);
  }

  // ---------------------------------------------------------------- sequences of deliveries

  /** An alert as it leaves the graph. */
  datatype Emission = Emission(webhookId: string, eventId: string, alert: Alert) {
    /** Webhook, event, transaction and log entry tell emissions apart. */
    function Key(): DedupeKey {
      (webhookId, eventId, alert.txHash, alert.logIndex)
    }
  }

  function EmissionsOf(h: History, limits: Limits, d: Delivery): (es: seq<Emission>)
    requires |d.times| == |d.alerts|
  {
    var emitted := Emitted(h, limits, d.alerts, d.Calls());
    seq(|emitted|, i requires 0 <= i < |emitted| => Emission(d.webhookId, d.eventId, emitted[i]))
  }

  /** Everything a sequence of deliveries emits. */
  function AllEmissions(h: History, limits: Limits, deliveries: seq<Delivery>): seq<Emission>
    requires AllTimed(deliveries)
  {
    if deliveries == [] then []
    else
      var before, last := deliveries[..|deliveries| - 1], deliveries[|deliveries| - 1];
      AllEmissions(h, limits, before) + EmissionsOf(AfterAll(h, limits, AllCalls(before)), limits, last)
  }

  /** One mark for each emission, under its key. */
  predicate MarkFor(es: seq<Emission>, marks: seq<Mark>) {
    |es| == |marks| && forall i | 0 <= i < |es| :: marks[i].key == es[i].Key()
  }

  lemma MarksConcatenate(es: seq<Emission>, fs: seq<Emission>, marks: seq<Mark>, more: seq<Mark>)
    requires MarkFor(es, marks) && MarkFor(fs, more)
    ensures MarkFor(es + fs, marks + more)
  {
  }

  lemma EmissionsOfAreMarks(h: History, limits: Limits, d: Delivery)
    requires |d.times| == |d.alerts|
    ensures h <= AfterAll(h, limits, d.Calls())
    ensures MarkFor(EmissionsOf(h, limits, d), AfterAll(h, limits, d.Calls())[|h|..])
  {
    hide AfterAll, Emitted, Delivery.Calls;
    EmittedIsMarked(h, limits, d);
  }

  lemma TailsConcatenate<T>(a: seq<T>, b: seq<T>, c: seq<T>)
    requires a <= b <= c
    ensures c[|a|..] == b[|a|..] + c[|b|..]
  {
  }

  /** The emissions of any sequence of deliveries are, one by one, the marks it adds. */
  lemma {:induction false} EmissionsAreMarks(h: History, limits: Limits, deliveries: seq<Delivery>)
    requires AllTimed(deliveries)
    ensures h <= AfterAll(h, limits, AllCalls(deliveries))
    ensures MarkFor(AllEmissions(h, limits, deliveries), AfterAll(h, limits, AllCalls(deliveries))[|h|..])
  {
    if deliveries == [] {
      AfterNothing(h, limits);
    } else {
      hide AfterAll, Emitted, EmissionsOf, Delivery.Calls, MarkFor;
      var before, last := deliveries[..|deliveries| - 1], deliveries[|deliveries| - 1];
      var mid := AfterAll(h, limits, AllCalls(before));
      EmissionsAreMarks(h, limits, before);
      AfterAllSplits(h, limits, AllCalls(before), last.Calls());
      EmissionsOfAreMarks(mid, limits, last);
      var after := AfterAll(h, limits, AllCalls(deliveries));
      MarksConcatenate(AllEmissions(h, limits, before), EmissionsOf(mid, limits, last), mid[|h|..], after[|mid|..]);
      TailsConcatenate(h, mid, after);
    }
  }

  /** Over any sequence of deliveries to a new store: no key is emitted twice within its TTL
      unless as many other alerts as the store may hold were emitted in between. */
  lemma NoAlertTwiceWithinTtl(limits: Limits, deliveries: seq<Delivery>, i: nat, j: nat)
    requires AllTimed(deliveries) && i < j < |AllEmissions([], limits, deliveries)|
    requires var es := AllEmissions([], limits, deliveries);
      es[i].Key() == es[j].Key()
    ensures var marks := AfterAll([], limits, AllCalls(deliveries));
      && |marks| == |AllEmissions([], limits, deliveries)|
      && (marks[i].at + limits.ttl <= marks[j].at || i + limits.Cap() <= j)
  {
    hide AfterAll, AllEmissions, AllCalls;
    EmissionsAreMarks([], limits, deliveries);
    NothingTwiceWithinTtl(limits, AllCalls(deliveries));
    var es, marks := AllEmissions([], limits, deliveries), AfterAll([], limits, AllCalls(deliveries));
    assert marks[0..] == marks;
    assert marks[i].key == es[i].Key() && marks[j].key == es[j].Key();
  }

  /** And every alert delivered has been emitted under its key at least once. */
  lemma EveryAlertIsEmitted(limits: Limits, deliveries: seq<Delivery>, d: nat, a: nat)
    requires AllTimed(deliveries) && d < |deliveries| && a < |deliveries[d].alerts|
    ensures exists e :: e in AllEmissions([], limits, deliveries)
                        && e.Key() == KeyOf(deliveries[d].webhookId, deliveries[d].eventId, deliveries[d].alerts[a])
  {
    var k := CallOf(deliveries, d, a);
    EveryKeyIsAccepted(limits, AllCalls(deliveries), k);
    EmissionsAreMarks([], limits, deliveries);
    var marks, es := AfterAll([], limits, AllCalls(deliveries)), AllEmissions([], limits, deliveries);
    var m :| m in marks && m.key == AllCalls(deliveries)[k].key;
    assert marks[0..] == marks;
    var i :| 0 <= i < |marks| && marks[i] == m;
    assert es[i] in es && es[i].Key() == m.key;
  }

  lemma {:induction false} CallOf(deliveries: seq<Delivery>, d: nat, a: nat) returns (k: nat)
    requires AllTimed(deliveries) && d < |deliveries| && a < |deliveries[d].alerts|
    ensures k < |AllCalls(deliveries)|
    ensures AllCalls(deliveries)[k].key == KeyOf(deliveries[d].webhookId, deliveries[d].eventId, deliveries[d].alerts[a])
  {
    var before := deliveries[..|deliveries| - 1];
    if d < |before| {
      k := CallOf(before, d, a);
    } else {
      k := |AllCalls(before)| + a;
    }
  }

  ghost predicate AllTimed(deliveries: seq<Delivery>) {
    forall d | d in deliveries :: |d.times| == |d.alerts|
  }

  /** All lookups of a sequence of deliveries. */
  function AllCalls(deliveries: seq<Delivery>): seq<Call>
    requires AllTimed(deliveries)
  {
    if deliveries == [] then [] else AllCalls(deliveries[..|deliveries| - 1]) + deliveries[|deliveries| - 1].Calls()
  }

  lemma {:induction false} NothingEmitted(h: History, limits: Limits, alerts: seq<Alert>, calls: seq<Call>)
    requires |calls| == |alerts|
    requires forall c | c in calls :: Recent(h, limits, c.key, c.now)
    ensures Emitted(h, limits, alerts, calls) == [] && AfterAll(h, limits, calls) == h
    decreases |alerts|
  {
    if alerts != [] {
      var n := |alerts| - 1;
      assert calls[n] in calls;
      NothingEmitted(h, limits, alerts[..n], calls[..n]);
    }
  }

  /** A payload delivered first, then any other deliveries, then delivered again, all inside
      the TTL and with at most as many distinct keys as the store holds since the first
      delivery began: the redelivery emits nothing and changes nothing, if none of its keys
      was remembered when the first delivery began. */
  lemma RedeliveryEmitsNothing(h: History, limits: Limits, deliveries: seq<Delivery>, again: Delivery, start: real)
    requires deliveries != [] && AllTimed(deliveries) && |again.times| == |again.alerts|
    requires var first := deliveries[0];
      first.webhookId == again.webhookId && first.eventId == again.eventId && first.alerts == again.alerts
    requires Window(limits, AllCalls(deliveries), start)
    requires forall t | t in again.times :: start <= t < start + limits.ttl
    requires forall a | a in again.alerts :: !Recent(h, limits, KeyOf(again.webhookId, again.eventId, a), start)
    ensures var before := AfterAll(h, limits, AllCalls(deliveries));
      && Emitted(before, limits, again.alerts, again.Calls()) == []
      && AfterAll(before, limits, again.Calls()) == before
  {
    var calls, repeated := AllCalls(deliveries), again.Calls();
    var before := AfterAll(h, limits, calls);
    FirstCallsFirst(deliveries);
    forall c | c in repeated
      ensures Recent(before, limits, c.key, c.now)
    {
      var i :| 0 <= i < |repeated| && repeated[i] == c;
      assert c.now == again.times[i] && c.now in again.times;
      assert again.alerts[i] in again.alerts;
      assert deliveries[0].Calls()[i] == calls[i];
      RedeliveryIsDuplicate(h, limits, calls, start, i, c.now);
    }
    NothingEmitted(before, limits, again.alerts, repeated);
  }

  lemma {:induction false} FirstCallsFirst(deliveries: seq<Delivery>)
    requires deliveries != [] && AllTimed(deliveries)
    ensures deliveries[0].Calls() <= AllCalls(deliveries)
  {
    hide Delivery.Calls;
    var before := deliveries[..|deliveries| - 1];
    if before != [] {
      FirstCallsFirst(before);
    } else {
      assert AllCalls(before) == [];
    }
  }
}
