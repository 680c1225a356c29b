/** Merging the two directions of a wallet's transfers (mercury/alchemy/transfers.py). */
module Transfers {
  import opened StableSort

  /** A block number as normalization leaves it: a number, some other text, or nothing. */
  datatype Block = Height(number: int) | Other(text: string) | Unknown

  datatype Row = Row(hash: string, block: Block, details: string)

  function BlockNumber(r: Row): int {
    match r.block
    case Height(n) => n
    case _ => 0
  }

  /** Python's order on strings, by code points. */
  predicate TextLe(a: string, b: string) {
    a == "" || (b != "" && (a[0] < b[0] || (a[0] == b[0] && TextLe(a[1..], b[1..]))))
  }

  /** The order of `(-block, hash)` tuples. */
  predicate Before(a: Row, b: Row) {
    BlockNumber(a) > BlockNumber(b) || (BlockNumber(a) == BlockNumber(b) && TextLe(a.hash, b.hash))
  }

  /** At the first place where the texts differ the first one has the smaller character, or it
      ends there. */
  ghost predicate Precedes(a: string, b: string) {
    exists n | 0 <= n <= |a| && n <= |b| ::
      a[..n] == b[..n] && (n == |a| || (n < |b| && a[n] < b[n]))
  }

  lemma {:induction false} FirstDifference(a: string, b: string) returns (n: nat)
    requires TextLe(a, b)
    ensures n <= |a| && n <= |b| && a[..n] == b[..n] && (n == |a| || (n < |b| && a[n] < b[n]))
  {
    if a == "" || a[0] < b[0] {
      n := 0;
    } else {
      n := FirstDifference(a[1..], b[1..]);
      assert a[..n + 1] == [a[0]] + a[1..][..n] && b[..n + 1] == [b[0]] + b[1..][..n];
      n := n + 1;
    }
  }

  lemma {:induction false} DifferenceDecides(a: string, b: string, n: nat)
    requires n <= |a| && n <= |b| && a[..n] == b[..n] && (n == |a| || (n < |b| && a[n] < b[n]))
    ensures TextLe(a, b)
  {
    if n > 0 {
      assert a[..n][0] == b[..n][0];
      assert a[1..][..n - 1] == a[..n][1..] && b[1..][..n - 1] == b[..n][1..];
      DifferenceDecides(a[1..], b[1..], n - 1);
    }
  }

  lemma TextLeMeans(a: string, b: string)
    ensures TextLe(a, b) <==> Precedes(a, b)
  {
    if TextLe(a, b) {
      var n := FirstDifference(a, b);
    }
    if Precedes(a, b) {
      var n: nat :| n <= |a| && n <= |b| && a[..n] == b[..n] && (n == |a| || (n < |b| && a[n] < b[n]));
      DifferenceDecides(a, b, n);
    }
  }

  lemma {:induction false} TextLeIsTotal(a: string, b: string)
    ensures TextLe(a, b) || TextLe(b, a)
    ensures TextLe(a, b) && TextLe(b, a) ==> a == b
  {
    if a != "" && b != "" && a[0] == b[0] {
      TextLeIsTotal(a[1..], b[1..]);
      assert a == [a[0]] + a[1..] && b == [b[0]] + b[1..];
    }
  }

  lemma {:induction false} TextLeIsTransitive(a: string, b: string, c: string)
    requires TextLe(a, b) && TextLe(b, c)
    ensures TextLe(a, c)
  {
    if a != "" && a[0] == b[0] == c[0] {
      TextLeIsTransitive(a[1..], b[1..], c[1..]);
    }
  }

  lemma BeforeIsPreorder()
    ensures TotalPreorder(Before)
  {
    forall x: Row, y: Row ensures Before(x, y) || Before(y, x) {
      TextLeIsTotal(x.hash, y.hash);
    }
    forall x: Row, y: Row, z: Row | Before(x, y) && Before(y, z) ensures Before(x, z) {
      if BlockNumber(x) == BlockNumber(y) == BlockNumber(z) {
        TextLeIsTransitive(x.hash, y.hash, z.hash);
      }
    }
  }

  // ---------------------------------------------------------------- the plain specification

  predicate HasHash(rows: seq<Row>, hash: string) {
    exists i | 0 <= i < |rows| :: rows[i].hash == hash
  }

  /** The rows whose hash is empty or has not occurred before. */
  function FirstOccurrences(rows: seq<Row>): (r: seq<Row>)
    ensures |r| <= |rows|
    ensures forall x :: x in r ==> x in rows
  {
    if rows == [] then []
    else
      var before, last := rows[..|rows| - 1], rows[|rows| - 1];
      FirstOccurrences(before) + if last.hash != "" && HasHash(before, last.hash) then [] else [last]
  }

  /** `rows[:n]`; a negative count drops from the end. */
  function Sliced<T>(rows: seq<T>, n: int): (r: seq<T>)
    ensures r <= rows
  {
    if n >= 0 then rows[..if n < |rows| then n else |rows|]
    else if |rows| + n >= 0 then rows[..|rows| + n]
    else []
  }

  function Merged(rows: seq<Row>, maxCount: int): seq<Row> {
    Sliced(Sort(FirstOccurrences(rows), Before), maxCount)
  }

  method MergeAndSortTransfers(rows: seq<Row>, maxCount: int) returns (kept: seq<Row>)
    ensures kept == Merged(rows, maxCount)
  {
    var seen: set<string> := {};
    var unique: seq<Row> := [];
    for i := 0 to |rows|
      invariant seen == set k | 0 <= k < i && rows[k].hash != "" :: rows[k].hash
      invariant unique == FirstOccurrences(rows[..i])
    {
      var r := rows[i];
      assert rows[..i + 1][..i] == rows[..i];
      assert HasHash(rows[..i], r.hash) <==> exists k | 0 <= k < i :: rows[k].hash == r.hash by {
        if k :| 0 <= k < i && rows[k].hash == r.hash {
          assert rows[..i][k].hash == r.hash;
        }
      }
      if r.hash != "" && r.hash in seen {
        continue;
      }
      if r.hash != "" {
        seen := seen + {r.hash};
      }
      unique := unique + [r];
    }
    assert rows[..|rows|] == rows;
    unique := Sort(unique, Before);
    kept := Sliced(unique, maxCount);
  }

  // ---------------------------------------------------------------- what the merge promises

  ghost predicate NoSharedHash(rows: seq<Row>) {
    forall i, j | 0 <= i < j < |rows| :: rows[i].hash == rows[j].hash ==> rows[i].hash == ""
  }

  lemma {:induction false} FirstOccurrencesShareNoHash(rows: seq<Row>)
    ensures NoSharedHash(FirstOccurrences(rows))
  {
    if rows != [] {
      var before, last := rows[..|rows| - 1], rows[|rows| - 1];
      FirstOccurrencesShareNoHash(before);
      var first := FirstOccurrences(before);
      forall i | 0 <= i < |first| && first[i].hash == last.hash
        ensures HasHash(before, last.hash)
      {
        assert first[i] in before;
        var k :| 0 <= k < |before| && before[k] == first[i];
      }
    }
  }

  /** Deduplication loses no hash: every row of the input is represented. */
  lemma {:induction false} EveryHashOccurs(rows: seq<Row>, i: nat)
    requires i < |rows|
    ensures if rows[i].hash == "" then rows[i] in FirstOccurrences(rows) else HasHash(FirstOccurrences(rows), rows[i].hash)
  {
    var before, last := rows[..|rows| - 1], rows[|rows| - 1];
    var first, all := FirstOccurrences(before), FirstOccurrences(rows);
    if i < |before| {
      EveryHashOccurs(before, i);
      assert first <= all;
      if rows[i].hash != "" {
        var k :| 0 <= k < |first| && first[k].hash == rows[i].hash;
        assert all[k].hash == rows[i].hash;
      }
    } else if last.hash != "" && HasHash(before, last.hash) {
      var k :| 0 <= k < |before| && before[k].hash == last.hash;
      EveryHashOccurs(before, k);
    } else {
      assert all[|first|] == last;
    }
  }

  lemma CountOfTwo(rows: seq<Row>, i: nat, j: nat)
    requires i < j < |rows|
    ensures multiset{rows[i], rows[j]} <= multiset(rows)
  {
    assert rows == rows[..i] + [rows[i]] + rows[i + 1..j] + [rows[j]] + rows[j + 1..];
  }

  lemma PermutationSharesNoHash(a: seq<Row>, b: seq<Row>)
    requires NoSharedHash(a) && multiset(a) == multiset(b)
    ensures NoSharedHash(b)
  {
    forall i, j | 0 <= i < j < |b| && b[i].hash == b[j].hash
      ensures b[i].hash == ""
    {
      CountOfTwo(b, i, j);
      var x, y := b[i], b[j];
      assert x in multiset(a) && y in multiset(a);
      var k :| 0 <= k < |a| && a[k] == x;
      if x == y {
        assert multiset(a)[x] >= 2;
        TwoPlaces(a, x, k);
      } else {
        var l :| 0 <= l < |a| && a[l] == y;
      }
    }
  }

  lemma TwoPlaces(a: seq<Row>, x: Row, k: nat)
    requires k < |a| && a[k] == x && multiset(a)[x] >= 2
    ensures exists l :: 0 <= l < |a| && l != k && a[l] == x
  {
    assert a == a[..k] + [x] + a[k + 1..];
    var rest := a[..k] + a[k + 1..];
    assert multiset(a) == multiset(rest) + multiset{x};
    assert x in multiset(rest);
    var l :| 0 <= l < |rest| && rest[l] == x;
    if l < k {
      assert a[l] == x;
    } else {
      assert a[l + 1] == x;
    }
  }

  /** A newer block, or the same block and no later hash; a block that is no number counts as
      block zero. */
  ghost predicate NewerFirst(a: Row, b: Row) {
    var m, n := if a.block.Height? then a.block.number else 0, if b.block.Height? then b.block.number else 0;
    m > n || (m == n && Precedes(a.hash, b.hash))
  }

  lemma BeforeIsNewer(a: Row, b: Row)
    ensures Before(a, b) <==> NewerFirst(a, b)
  {
    TextLeMeans(a.hash, b.hash);
  }

  /** How many rows are kept: all up to the count; a negative count leaves so many out. */
  lemma KeptCount(rows: seq<Row>, maxCount: int)
    ensures var all := |FirstOccurrences(rows)|;
      |Merged(rows, maxCount)|
      == if maxCount >= all then all else if maxCount >= 0 then maxCount
         else if maxCount + all >= 0 then maxCount + all else 0
  {
  }

  /** No two kept rows share a non-empty hash; kept rows come newest first, and from the
      deduplicated input. */
  lemma KeptRowsAreDistinct(rows: seq<Row>, maxCount: int)
    ensures var kept := Merged(rows, maxCount);
      && NoSharedHash(kept) && Ordered(kept, Before)
      && (forall i, j | 0 <= i < j < |kept| :: NewerFirst(kept[i], kept[j]))
      && forall x | x in kept :: x in FirstOccurrences(rows)
  {
    forall a, b ensures Before(a, b) <==> NewerFirst(a, b) {
      BeforeIsNewer(a, b);
    }
    var first := FirstOccurrences(rows);
    var sorted := Sort(first, Before);
    FirstOccurrencesShareNoHash(rows);
    BeforeIsPreorder();
    SortOrders(first, Before);
    SortPermutes(first, Before);
    SortKeepsElements(first, Before);
    PermutationSharesNoHash(first, sorted);
  }

  /** A row of the deduplicated input that was cut off sorts strictly before no kept row. */
  lemma NothingBetterIsDropped(rows: seq<Row>, maxCount: int, dropped: Row, kept: Row)
    requires dropped in FirstOccurrences(rows) && dropped !in Merged(rows, maxCount) && kept in Merged(rows, maxCount)
    ensures Before(kept, dropped) && NewerFirst(kept, dropped)
  {
    BeforeIsNewer(kept, dropped);
    var first := FirstOccurrences(rows);
    var sorted := Sort(first, Before);
    BeforeIsPreorder();
    SortOrders(first, Before);
    SortKeepsElements(first, Before);
    var out := Merged(rows, maxCount);
    var i :| 0 <= i < |out| && out[i] == kept;
    var j :| 0 <= j < |sorted| && sorted[j] == dropped;
    assert sorted[i] == kept;
    assert forall k | 0 <= k < |out| :: sorted[k] == out[k] && out[k] in out;
  }

  /** With room for everything, every hash of the input is kept, and rows that tie keep their
      order. */
  lemma NothingIsLost(rows: seq<Row>, maxCount: int, i: nat, x: Row)
    requires i < |rows| && maxCount >= |rows|
    ensures var kept := Merged(rows, maxCount);
      && (if rows[i].hash == "" then rows[i] in kept else HasHash(kept, rows[i].hash))
      && Ties(kept, x, Before) == Ties(FirstOccurrences(rows), x, Before)
  {
    var first := FirstOccurrences(rows);
    var sorted := Sort(first, Before);
    EveryHashOccurs(rows, i);
    BeforeIsPreorder();
    SortKeepsElements(first, Before);
    SortIsStable(first, x, Before);
    assert Merged(rows, maxCount) == sorted;
    if rows[i].hash != "" {
      var k :| 0 <= k < |first| && first[k].hash == rows[i].hash;
      assert first[k] in sorted;
      var l :| 0 <= l < |sorted| && sorted[l] == first[k];
    }
  }

  lemma {:induction false} DistinctRowsStay(rows: seq<Row>)
    requires NoSharedHash(rows)
    ensures FirstOccurrences(rows) == rows
  {
    if rows != [] {
      var before, last := rows[..|rows| - 1], rows[|rows| - 1];
      DistinctRowsStay(before);
      assert rows == before + [last];
    }
  }

  /** Merging a merged list again, with the same count, changes nothing. */
  lemma MergingTwiceIsMergingOnce(rows: seq<Row>, maxCount: nat)
    ensures Merged(Merged(rows, maxCount), maxCount) == Merged(rows, maxCount)
  {
    KeptRowsAreDistinct(rows, maxCount);
    DistinctRowsStay(Merged(rows, maxCount));
    OrderedIsFixed(Merged(rows, maxCount), Before);
  }
}
