/** The three clauses every store query is built from, over a table held as a
    sequence of rows in insertion (primary-key) order:
      `where`   -> Filter
      `orderBy` -> SortBy, ascending on an integer key (descending order is
                   ascending on the negated key)
      `limit`   -> Take, and First for `limit(1)`.
    SQL leaves the order of rows with equal keys unspecified; SortBy keeps them
    in table order, and no contract below relies on that choice. */
module Query {
  import opened Results

  function Filter<R(==,!new)>(s: seq<R>, p: R -> bool): (r: seq<R>)
    ensures |r| <= |s|
    ensures forall x :: x in r <==> x in s && p(x)
  {
    if s == [] then []
    else
      assert s == [s[0]] + s[1..];
      if p(s[0]) then [s[0]] + Filter(s[1..], p) else Filter(s[1..], p)
  }

  /** A filter keeps every passing row as often as the table holds it, and
      drops every other row entirely. */
  lemma {:induction false} FilterCounts<R(!new)>(s: seq<R>, p: R -> bool, x: R)
    ensures multiset(Filter(s, p))[x] == if p(x) then multiset(s)[x] else 0
  {
    if s != [] {
      assert s == [s[0]] + s[1..];
      FilterCounts(s[1..], p, x);
    }
  }

  /** A row appended to the table shows up at the end of every filter it passes. */
  lemma {:induction false} FilterAppend<R(!new)>(s: seq<R>, x: R, p: R -> bool)
    ensures Filter(s + [x], p) == Filter(s, p) + (if p(x) then [x] else [])
  {
    if s != [] {
      var t := s + [x];
      assert t[0] == s[0] && t[1..] == s[1..] + [x];
      FilterAppend(s[1..], x, p);
    }
  }

  ghost predicate SortedBy<R>(s: seq<R>, key: R -> int) {
    forall i, j :: 0 <= i < j < |s| ==> key(s[i]) <= key(s[j])
  }

  /** Inserts `x` before the first row whose key is not smaller. */
  function InsertBy<R>(x: R, s: seq<R>, key: R -> int): (r: seq<R>)
    requires SortedBy(s, key)
    ensures |r| == |s| + 1
    ensures r[0] == x || (|s| > 0 && r[0] == s[0])
    ensures SortedBy(r, key)
  {
    if s == [] then [x]
    else if key(x) <= key(s[0]) then [x] + s
    else
      var rest := InsertBy(x, s[1..], key);
      assert key(s[0]) <= key(rest[0]);
      [s[0]] + rest
  }

  /** Insertion adds `x` and loses nothing. */
  lemma {:induction false} InsertByPermutes<R>(x: R, s: seq<R>, key: R -> int)
    requires SortedBy(s, key)
    ensures multiset(InsertBy(x, s, key)) == multiset(s) + multiset{x}
  {
    if s != [] && key(s[0]) < key(x) {
      assert s == [s[0]] + s[1..];
      InsertByPermutes(x, s[1..], key);
    }
  }

  /** The rows of `s` reordered so that `key` never decreases. */
  function SortBy<R>(s: seq<R>, key: R -> int): (r: seq<R>)
    ensures SortedBy(r, key)
    ensures multiset(r) == multiset(s)
  {
    if s == [] then []
    else
      assert s == [s[0]] + s[1..];
      var sorted := SortBy(s[1..], key);
      InsertByPermutes(s[0], sorted, key);
      InsertBy(s[0], sorted, key)
  }

  function Take<R>(s: seq<R>, n: nat): (r: seq<R>)
    ensures |r| == if n < |s| then n else |s|
    ensures forall i :: 0 <= i < |r| ==> r[i] == s[i]
  {
    if n < |s| then s[..n] else s
  }

  function First<R>(s: seq<R>): (r: Option<R>)
    ensures r.None? <==> s == []
    ensures r.Some? ==> r.value == s[0]
  {
    if s == [] then None else Some(s[0])
  }

  /** `update ... set(f) where p`: the rows passing `p` are rewritten by `f`,
      every other row is left as it was, and no row moves. */
  function UpdateWhere<R>(s: seq<R>, p: R -> bool, f: R -> R): (r: seq<R>)
    ensures |r| == |s|
    ensures forall i :: 0 <= i < |s| ==> r[i] == if p(s[i]) then f(s[i]) else s[i]
  {
    seq(|s|, i requires 0 <= i < |s| => if p(s[i]) then f(s[i]) else s[i])
  }

  /** The rows passing `p`, ordered by `key`: `where ... orderBy ...`. Each
      passing row appears exactly as often as the table holds it. */
  function OrderedWhere<R(==,!new)>(s: seq<R>, p: R -> bool, key: R -> int): (r: seq<R>)
    ensures SortedBy(r, key)
    ensures forall x :: x in r <==> x in s && p(x)
    ensures forall x :: multiset(r)[x] == if p(x) then multiset(s)[x] else 0
  {
    var f := Filter(s, p);
    var r := SortBy(f, key);
    assert forall x :: x in r <==> x in f by {
      forall x ensures x in r <==> x in f {
        assert x in r <==> x in multiset(r);
        assert x in f <==> x in multiset(f);
      }
    }
    forall x ensures multiset(r)[x] == if p(x) then multiset(s)[x] else 0 {
      FilterCounts(s, p, x);
    }
    r
  }

  /** When one row has a strictly smaller key than every other row, ordering
      puts it first: this is why `orderBy(desc(createdAt)).limit(1)` right
      after an insert returns the inserted row. */
  lemma LeastIsFirst<R(!new)>(s: seq<R>, key: R -> int, x: R)
    requires x in s
    requires forall y :: y in s && y != x ==> key(x) < key(y)
    ensures First(SortBy(s, key)) == Some(x)
  {
    var r := SortBy(s, key);
    assert x in multiset(r);
    var i :| 0 <= i < |r| && r[i] == x;
    assert r[0] in multiset(s);
    if i != 0 {
      assert key(r[0]) <= key(x);
    }
  }

  /** `limit(n)` keeps each row at most as often as the listing holds it, and
      keeps the whole listing when it is shorter than `n`. */
  lemma TakeCounts<R>(s: seq<R>, n: nat)
    ensures forall x :: multiset(Take(s, n))[x] <= multiset(s)[x]
    ensures |Take(s, n)| < n ==> Take(s, n) == s
  {
    if n < |s| {
      assert s == s[..n] + s[n..];
      assert multiset(s) == multiset(s[..n]) + multiset(s[n..]);
    }
  }

  /** `limit(n)` keeps an ordered listing ordered, and invents no rows. */
  lemma TakeSorted<R(!new)>(s: seq<R>, key: R -> int, n: nat)
    requires SortedBy(s, key)
    ensures SortedBy(Take(s, n), key)
    ensures forall x :: x in Take(s, n) ==> x in s
  {
    var t := Take(s, n);
    forall i, j | 0 <= i < j < |t| ensures key(t[i]) <= key(t[j]) {
      assert t[i] == s[i] && t[j] == s[j];
    }
    forall x | x in t ensures x in s {
      var k :| 0 <= k < |t| && t[k] == x;
      assert s[k] == x;
    }
  }

  /** Under `limit(n)`, a row cut from an ordered listing has a key no smaller
      than any row that was kept. */
  lemma TakeKeepsLeast<R(!new)>(s: seq<R>, key: R -> int, n: nat, x: R)
    requires SortedBy(s, key)
    requires x in s && x !in Take(s, n)
    ensures forall y :: y in Take(s, n) ==> key(y) <= key(x)
  {
    var k :| 0 <= k < |s| && s[k] == x;
    var t := Take(s, n);
    assert k >= |t| by {
      assert forall m :: 0 <= m < |t| ==> t[m] == s[m] && t[m] != x;
    }
    forall y | y in t ensures key(y) <= key(x) {
      var j :| 0 <= j < |t| && t[j] == y;
    }
  }
}
