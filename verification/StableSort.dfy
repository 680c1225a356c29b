/** Python's `sorted` and `list.sort`: a stable sort, and what it promises. */
module StableSort {

  ghost predicate TotalPreorder<T(!new)>(le: (T, T) -> bool) {
    && (forall x, y :: le(x, y) || le(y, x))
    && (forall x, y, z :: le(x, y) && le(y, z) ==> le(x, z))
  }

  predicate Ordered<T>(s: seq<T>, le: (T, T) -> bool) {
    forall i, j | 0 <= i < j < |s| :: le(s[i], s[j])
  }

  /** `x` goes before everything it is not above. */
  function Insert<T>(x: T, s: seq<T>, le: (T, T) -> bool): (r: seq<T>)
    ensures |r| == |s| + 1
  {
    if s == [] || le(x, s[0]) then [x] + s else [s[0]] + Insert(x, s[1..], le)
  }

  function Sort<T>(s: seq<T>, le: (T, T) -> bool): (r: seq<T>)
    ensures |r| == |s|
  {
    if s == [] then [] else Insert(s[0], Sort(s[1..], le), le)
  }

  /** The elements that compare equal to `x`, in order. */
  function Ties<T>(s: seq<T>, x: T, le: (T, T) -> bool): seq<T> {
    if s == [] then []
    else (if le(x, s[0]) && le(s[0], x) then [s[0]] else []) + Ties(s[1..], x, le)
  }

  lemma {:induction false} InsertPermutes<T>(x: T, s: seq<T>, le: (T, T) -> bool)
    ensures multiset(Insert(x, s, le)) == multiset(s) + multiset{x}
  {
    if s != [] && !le(x, s[0]) {
      InsertPermutes(x, s[1..], le);
      assert [s[0]] + s[1..] == s;
    }
  }

  lemma {:induction false} SortPermutes<T>(s: seq<T>, le: (T, T) -> bool)
    ensures multiset(Sort(s, le)) == multiset(s)
  {
    if s != [] {
      SortPermutes(s[1..], le);
      InsertPermutes(s[0], Sort(s[1..], le), le);
      assert [s[0]] + s[1..] == s;
    }
  }

  lemma SortKeepsElements<T>(s: seq<T>, le: (T, T) -> bool)
    ensures forall x :: x in Sort(s, le) <==> x in s
  {
    SortPermutes(s, le);
    assert forall x :: x in Sort(s, le) <==> x in multiset(Sort(s, le));
    assert forall x :: x in s <==> x in multiset(s);
  }

  lemma {:induction false} InsertOrders<T(!new)>(x: T, s: seq<T>, le: (T, T) -> bool)
    requires TotalPreorder(le) && Ordered(s, le)
    ensures Ordered(Insert(x, s, le), le)
  {
    if s != [] {
      if le(x, s[0]) {
        var r := [x] + s;
        forall i, j | 0 <= i < j < |r| ensures le(r[i], r[j]) {
          if i == 0 && j > 1 {
            assert le(s[0], s[j - 1]);
          }
        }
      } else {
        var rest := s[1..];
        InsertOrders(x, rest, le);
        InsertPermutes(x, rest, le);
        var tail := Insert(x, rest, le);
        forall j | 0 <= j < |tail| ensures le(s[0], tail[j]) {
          assert tail[j] in multiset(tail);
          assert tail[j] == x || tail[j] in rest;
        }
      }
    }
  }

  lemma {:induction false} SortOrders<T(!new)>(s: seq<T>, le: (T, T) -> bool)
    requires TotalPreorder(le)
    ensures Ordered(Sort(s, le), le)
  {
    if s != [] {
      SortOrders(s[1..], le);
      InsertOrders(s[0], Sort(s[1..], le), le);
    }
  }

  function TiesOfOne<T>(x: T, y: T, le: (T, T) -> bool): seq<T> {
    if le(y, x) && le(x, y) then [x] else []
  }

  lemma TiesOfPrepended<T>(x: T, s: seq<T>, y: T, le: (T, T) -> bool)
    ensures Ties([x] + s, y, le) == TiesOfOne(x, y, le) + Ties(s, y, le)
  {
    assert ([x] + s)[1..] == s;
  }

  lemma TiesAreTransitive<T(!new)>(x: T, y: T, z: T, le: (T, T) -> bool)
    requires TotalPreorder(le) && !le(x, z)
    ensures TiesOfOne(x, y, le) == [] || TiesOfOne(z, y, le) == []
  {
  }

  lemma {:induction false} InsertKeepsTies<T(!new)>(x: T, s: seq<T>, y: T, le: (T, T) -> bool)
    requires TotalPreorder(le)
    ensures Ties(Insert(x, s, le), y, le) == TiesOfOne(x, y, le) + Ties(s, y, le)
  {
    hide TotalPreorder, Ties, TiesOfOne;
    if s == [] || le(x, s[0]) {
      TiesOfPrepended(x, s, y, le);
    } else {
      var head, rest := s[0], s[1..];
      assert s == [head] + rest;
      InsertKeepsTies(x, rest, y, le);
      TiesOfPrepended(head, Insert(x, rest, le), y, le);
      TiesOfPrepended(head, rest, y, le);
      TiesAreTransitive(x, y, head, le);
      assert TiesOfOne(head, y, le) + (TiesOfOne(x, y, le) + Ties(rest, y, le))
          == TiesOfOne(x, y, le) + (TiesOfOne(head, y, le) + Ties(rest, y, le));
    }
  }

  /** Stability: elements that compare equal keep their order. */
  lemma {:induction false} SortIsStable<T(!new)>(s: seq<T>, y: T, le: (T, T) -> bool)
    requires TotalPreorder(le)
    ensures Ties(Sort(s, le), y, le) == Ties(s, y, le)
  {
    if s != [] {
      SortIsStable(s[1..], y, le);
      InsertKeepsTies(s[0], Sort(s[1..], le), y, le);
      TiesOfPrepended(s[0], s[1..], y, le);
      assert s == [s[0]] + s[1..];
    }
  }

  /** An ordered sequence is left as it is. */
  lemma {:induction false} OrderedIsFixed<T>(s: seq<T>, le: (T, T) -> bool)
    requires Ordered(s, le)
    ensures Sort(s, le) == s
  {
    if s != [] {
      OrderedIsFixed(s[1..], le);
      if |s| > 1 {
        assert le(s[0], s[1]);
      }
    }
  }
}
