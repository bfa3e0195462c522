/** Tables as sequences of rows, and the `WHERE` filter every query shares. */
module Tables {
  import opened Wrappers

  /** The rows satisfying `p`, in table order. */
  function Filter<T(!new)>(rows: seq<T>, p: T -> bool): (r: seq<T>)
    ensures |r| <= |rows|
    ensures forall x :: x in r <==> x in rows && p(x)
  {
    if rows == [] then []
    else (if p(rows[0]) then [rows[0]] else []) + Filter(rows[1..], p)
  }

  /** The conjunction of two row predicates. */
  function Both<T>(p: T -> bool, q: T -> bool): T -> bool
  {
    x => p(x) && q(x)
  }

  /** Filtering by `p` and then by `q` keeps exactly the rows satisfying
      both, in the same order. */
  lemma {:induction false} FilterFilter<T(!new)>(rows: seq<T>, p: T -> bool, q: T -> bool)
    ensures Filter(Filter(rows, p), q) == Filter(rows, Both(p, q))
  {
    if rows != [] {
      FilterFilter(rows[1..], p, q);
      var head := if p(rows[0]) then [rows[0]] else [];
      assert Filter(rows, p) == head + Filter(rows[1..], p);
      FilterAppend(head, Filter(rows[1..], p), q);
    }
  }

  lemma {:induction false} FilterAppend<T(!new)>(a: seq<T>, b: seq<T>, p: T -> bool)
    ensures Filter(a + b, p) == Filter(a, p) + Filter(b, p)
  {
    if a != [] {
      assert (a + b)[1..] == a[1..] + b;
      FilterAppend(a[1..], b, p);
    } else {
      assert a + b == b;
    }
  }

  /** Filters by predicates that agree on every row are equal. */
  lemma {:induction false} FilterCongruent<T(!new)>(rows: seq<T>, p: T -> bool, q: T -> bool)
    requires forall i :: 0 <= i < |rows| ==> p(rows[i]) == q(rows[i])
    ensures Filter(rows, p) == Filter(rows, q)
  {
    if rows != [] {
      FilterCongruent(rows[1..], p, q);
    }
  }

  /** Two tables that differ only in rows neither version of which matches
      yield the same filter result. */
  lemma {:induction false} FilterPointwise<T(!new)>(a: seq<T>, b: seq<T>, p: T -> bool)
    requires |a| == |b|
    requires forall i :: 0 <= i < |a| && (p(a[i]) || p(b[i])) ==> a[i] == b[i]
    ensures Filter(a, p) == Filter(b, p)
  {
    if a != [] {
      FilterPointwise(a[1..], b[1..], p);
    }
  }

  /** Number of rows satisfying `p`, the way `count(...)` computes it. */
  function Count<T>(rows: seq<T>, p: T -> bool): nat
  {
    if rows == [] then 0 else (if p(rows[0]) then 1 else 0) + Count(rows[1..], p)
  }

  /** `count(...)` is the size of the matching rows. */
  lemma {:induction false} CountIsFilterSize<T(!new)>(rows: seq<T>, p: T -> bool)
    ensures Count(rows, p) == |Filter(rows, p)|
  {
    if rows != [] {
      CountIsFilterSize(rows[1..], p);
    }
  }

  lemma {:induction false} FilterNone<T(!new)>(rows: seq<T>, p: T -> bool)
    requires forall i :: 0 <= i < |rows| ==> !p(rows[i])
    ensures Filter(rows, p) == []
  {
    if rows != [] {
      FilterNone(rows[1..], p);
    }
  }

  /** When at most one row of `rows` can satisfy `p`, the filter yields at
      most one row. */
  lemma {:induction false} FilterAtMostOne<T(!new)>(rows: seq<T>, p: T -> bool)
    requires forall i, j :: 0 <= i < j < |rows| && p(rows[i]) && p(rows[j]) ==> false
    ensures |Filter(rows, p)| <= 1
  {
    if rows != [] {
      FilterAtMostOne(rows[1..], p);
      if p(rows[0]) {
        assert forall j :: 1 <= j < |rows| ==> !p(rows[j]);
        FilterNone(rows[1..], p);
      }
    }
  }

  /** Row `i` is the one row of `rows` that satisfies `p`. */
  predicate OnlyMatch<T>(rows: seq<T>, p: T -> bool, i: int)
  {
    0 <= i < |rows| && p(rows[i]) && forall j :: 0 <= j < |rows| && j != i ==> !p(rows[j])
  }

  /** Two different rows of `rows` satisfy `p`. */
  predicate TwoMatches<T>(rows: seq<T>, p: T -> bool)
  {
    exists i, j :: 0 <= i < j < |rows| && p(rows[i]) && p(rows[j])
  }

  /** A row that is the only match is the whole filter result. */
  lemma {:induction false} FilterOnly<T(!new)>(rows: seq<T>, p: T -> bool, i: int)
    requires OnlyMatch(rows, p, i)
    ensures Filter(rows, p) == [rows[i]]
  {
    var rest := rows[1..];
    if i == 0 {
      forall j | 0 <= j < |rest|
        ensures !p(rest[j])
      {
        assert rest[j] == rows[j + 1];
      }
      FilterNone(rest, p);
    } else {
      forall j | 0 <= j < |rest| && j != i - 1
        ensures !p(rest[j])
      {
        assert rest[j] == rows[j + 1];
      }
      assert rest[i - 1] == rows[i];
      FilterOnly(rest, p, i - 1);
    }
  }

  /** The filter yields two rows or more exactly when two rows match. */
  lemma {:induction false} FilterTwo<T(!new)>(rows: seq<T>, p: T -> bool)
    ensures |Filter(rows, p)| >= 2 <==> TwoMatches(rows, p)
  {
    if rows != [] {
      var rest := rows[1..];
      FilterTwo(rest, p);
      assert Filter(rows, p) == (if p(rows[0]) then [rows[0]] else []) + Filter(rest, p);
      if TwoMatches(rows, p) {
        var i, j :| 0 <= i < j < |rows| && p(rows[i]) && p(rows[j]);
        assert rows[j] == rest[j - 1];
        if i == 0 {
          assert rest[j - 1] in Filter(rest, p);
        } else {
          assert rows[i] == rest[i - 1];
          assert TwoMatches(rest, p);
        }
      }
      if |Filter(rows, p)| >= 2 {
        if p(rows[0]) {
          var y := Filter(rest, p)[0];
          assert y in Filter(rest, p);
          var j :| 0 <= j < |rest| && rest[j] == y;
          assert rows[j + 1] == y;
          assert TwoMatches(rows, p);
        } else {
          var i, j :| 0 <= i < j < |rest| && p(rest[i]) && p(rest[j]);
          assert rows[i + 1] == rest[i] && rows[j + 1] == rest[j];
          assert TwoMatches(rows, p);
        }
      }
    }
  }

  /** A query declared to return `Optional<T>`: no matching row, the one
      matching row, or the error Spring raises when several rows match. */
  function FindOne<T(!new)>(rows: seq<T>, p: T -> bool): (r: Lookup<T>)
    ensures r.Absent? <==> forall x :: x in rows ==> !p(x)
    ensures r.Found? ==> r.row in rows && p(r.row)
    ensures r.NonUnique? <==> TwoMatches(rows, p)
    ensures forall i :: OnlyMatch(rows, p, i) ==> r == Found(rows[i])
  {
    var matching := Filter(rows, p);
    assert matching != [] ==> matching[0] in matching;
    FilterTwo(rows, p);
    forall i | OnlyMatch(rows, p, i)
      ensures matching == [rows[i]]
    {
      FilterOnly(rows, p, i);
    }
    Single(matching)
  }
}
