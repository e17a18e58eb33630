/** Stable sorting of values, as the library sorts of the repository do it. */
module StableSort {
  /** `le` compares any two values and chains. */
  ghost predicate TotalOrder<T(!new)>(le: (T, T) -> bool) {
    (forall a, b :: le(a, b) || le(b, a)) && (forall a, b, c :: le(a, b) && le(b, c) ==> le(a, c))
  }

  /** Before the first element that is not smaller. */
  function Insert<T>(le: (T, T) -> bool, x: T, sorted: seq<T>): seq<T> {
    if sorted == [] || le(x, sorted[0]) then [x] + sorted else [sorted[0]] + Insert(le, x, sorted[1..])
  }

  function Sort<T>(le: (T, T) -> bool, xs: seq<T>): seq<T> {
    if xs == [] then [] else Insert(le, xs[0], Sort(le, xs[1..]))
  }

  ghost predicate Sorted<T>(le: (T, T) -> bool, xs: seq<T>) {
    forall i, j :: 0 <= i < j < |xs| ==> le(xs[i], xs[j])
  }

  lemma {:induction false} InsertKeeps<T>(le: (T, T) -> bool, x: T, sorted: seq<T>)
    ensures multiset(Insert(le, x, sorted)) == multiset(sorted) + multiset{x}
  {
    if sorted != [] && !le(x, sorted[0]) {
      InsertKeeps(le, x, sorted[1..]);
      assert sorted == [sorted[0]] + sorted[1..];
    }
  }

  lemma PrependLeast<T>(le: (T, T) -> bool, x: T, rest: seq<T>)
    requires Sorted(le, rest) && forall y :: y in multiset(rest) ==> le(x, y)
    ensures Sorted(le, [x] + rest)
  {
    forall i | 0 <= i < |rest| ensures le(x, rest[i]) {
      assert rest[i] in multiset(rest);
    }
  }

  lemma {:induction false} InsertSorts<T(!new)>(le: (T, T) -> bool, x: T, sorted: seq<T>)
    requires TotalOrder(le) && Sorted(le, sorted)
    ensures Sorted(le, Insert(le, x, sorted))
  {
    if sorted == [] {
    } else if le(x, sorted[0]) {
      forall y | y in multiset(sorted) ensures le(x, y) {
        var i :| 0 <= i < |sorted| && sorted[i] == y;
        assert i > 0 ==> le(sorted[0], y);
      }
      PrependLeast(le, x, sorted);
    } else {
      var rest := sorted[1..];
      InsertSorts(le, x, rest);
      InsertKeeps(le, x, rest);
      forall y | y in multiset(Insert(le, x, rest)) ensures le(sorted[0], y) {
        if y != x {
          assert y in multiset(rest);
          var i :| 0 <= i < |rest| && rest[i] == y;
        }
      }
      PrependLeast(le, sorted[0], Insert(le, x, rest));
    }
  }

  /** Sorting permutes the values and puts them in order. */
  lemma {:induction false} SortSorts<T(!new)>(le: (T, T) -> bool, xs: seq<T>)
    requires TotalOrder(le)
    ensures Sorted(le, Sort(le, xs)) && multiset(Sort(le, xs)) == multiset(xs)
  {
    if xs != [] {
      SortSorts(le, xs[1..]);
      InsertSorts(le, xs[0], Sort(le, xs[1..]));
      InsertKeeps(le, xs[0], Sort(le, xs[1..]));
      assert xs == [xs[0]] + xs[1..];
    }
  }

  /** The values that are as great as `x`, in order. */
  function Ties<T>(le: (T, T) -> bool, x: T, xs: seq<T>): seq<T> {
    if xs == [] then []
    else (if le(x, xs[0]) && le(xs[0], x) then [xs[0]] else []) + Ties(le, x, xs[1..])
  }

  lemma {:induction false} InsertStable<T(!new)>(le: (T, T) -> bool, x: T, y: T, sorted: seq<T>)
    requires TotalOrder(le)
    ensures Ties(le, x, Insert(le, y, sorted)) == Ties(le, x, [y] + sorted)
  {
    assert ([y] + sorted)[1..] == sorted;
    if sorted != [] && !le(y, sorted[0]) {
      var rest := sorted[1..];
      InsertStable(le, x, y, rest);
      assert ([y] + rest)[1..] == rest;
      assert ([sorted[0]] + Insert(le, y, rest))[1..] == Insert(le, y, rest);
      assert !(le(x, sorted[0]) && le(y, x));
    }
  }

  /** Sorting keeps the order of values that are equally great. */
  lemma {:induction false} SortStable<T(!new)>(le: (T, T) -> bool, x: T, xs: seq<T>)
    requires TotalOrder(le)
    ensures Ties(le, x, Sort(le, xs)) == Ties(le, x, xs)
  {
    if xs != [] {
      SortStable(le, x, xs[1..]);
      InsertStable(le, x, xs[0], Sort(le, xs[1..]));
      assert ([xs[0]] + Sort(le, xs[1..]))[1..] == Sort(le, xs[1..]);
    }
  }
}
