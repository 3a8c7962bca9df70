/** Database collections as the list loaders query them: filter, sort by a key, limit. */
module ListQuery {
  import opened Wrappers
  import opened Sequences

  /** A document: its primary key, its sort key, and the other columns a filter may look at. */
  datatype Row = Row(pk: nat, ord: nat, columns: nat)

  type Filter = Row -> bool

  datatype Range = AtMost(bound: nat) | AtLeast(bound: nat) | Below(bound: nat) | Above(bound: nat)

  predicate InRange(range: Range, key: nat) {
    match range
    case AtMost(b) => key <= b
    case AtLeast(b) => key >= b
    case Below(b) => key < b
    case Above(b) => key > b
  }

  function Where(rows: seq<Row>, p: Filter): seq<Row> {
    if rows == [] then []
    else if p(rows[|rows| - 1]) then Where(rows[..|rows| - 1], p) + [rows[|rows| - 1]]
    else Where(rows[..|rows| - 1], p)
  }

  function Insert(s: seq<Row>, r: Row): seq<Row> {
    if s == [] || s[|s| - 1].ord <= r.ord then s + [r]
    else Insert(s[..|s| - 1], r) + [s[|s| - 1]]
  }

  /** The rows by ascending sort key. */
  function Sort(rows: seq<Row>): seq<Row> {
    if rows == [] then [] else Insert(Sort(rows[..|rows| - 1]), rows[|rows| - 1])
  }

  function Ords(s: seq<Row>): (keys: seq<nat>)
    ensures |keys| == |s| && forall i :: 0 <= i < |s| ==> keys[i] == s[i].ord
  {
    seq(|s|, i requires 0 <= i < |s| => s[i].ord)
  }

  function Pks(s: seq<Row>): (keys: seq<nat>)
    ensures |keys| == |s| && forall i :: 0 <= i < |s| ==> keys[i] == s[i].pk
  {
    seq(|s|, i requires 0 <= i < |s| => s[i].pk)
  }

  /** A query sorted by the sort key, in either direction. */
  function Find(rows: seq<Row>, p: Filter, ascending: bool, limit: nat): seq<Row> {
    var sorted := Sort(Where(rows, p));
    Take(if ascending then sorted else Reversed(sorted), limit)
  }

  function FindOne(rows: seq<Row>, p: Filter, ascending: bool): Option<Row> {
    var found := Find(rows, p, ascending, 1);
    if found == [] then None else Some(found[0])
  }

  // ---------------------------------------------------------------- sorting

  ghost predicate Sorted(s: seq<Row>) {
    forall i, j :: 0 <= i <= j < |s| ==> s[i].ord <= s[j].ord
  }

  lemma {:induction false} InsertAdds(s: seq<Row>, r: Row)
    ensures multiset(Insert(s, r)) == multiset(s) + multiset{r}
  {
    if s != [] && s[|s| - 1].ord > r.ord {
      InsertAdds(s[..|s| - 1], r);
      assert s == s[..|s| - 1] + [s[|s| - 1]];
    }
  }

  lemma {:induction false} InsertSorts(s: seq<Row>, r: Row)
    requires Sorted(s)
    ensures Sorted(Insert(s, r))
  {
    if s != [] && s[|s| - 1].ord > r.ord {
      var init, last := s[..|s| - 1], s[|s| - 1];
      InsertSorts(init, r);
      InsertBelow(init, r, last);
    }
  }

  lemma InsertBelow(s: seq<Row>, r: Row, last: Row)
    requires r.ord <= last.ord && forall x :: x in s ==> x.ord <= last.ord
    ensures forall x :: x in Insert(s, r) ==> x.ord <= last.ord
  {
    InsertAdds(s, r);
    forall x | x in Insert(s, r)
      ensures x.ord <= last.ord
    {
      assert x in multiset(Insert(s, r));
    }
  }

  lemma {:induction false} SortSorts(rows: seq<Row>)
    ensures Sorted(Sort(rows)) && multiset(Sort(rows)) == multiset(rows)
    ensures |Sort(rows)| == |rows| && forall r :: r in Sort(rows) <==> r in rows
  {
    if rows != [] {
      var init := rows[..|rows| - 1];
      SortSorts(init);
      InsertSorts(Sort(init), rows[|rows| - 1]);
      InsertAdds(Sort(init), rows[|rows| - 1]);
      assert rows == init + [rows[|rows| - 1]];
    }
    assert |multiset(Sort(rows))| == |multiset(rows)|;
    assert forall r :: r in Sort(rows) <==> r in multiset(Sort(rows));
  }

  lemma {:induction false} WhereKeeps(rows: seq<Row>, p: Filter)
    ensures forall r :: r in Where(rows, p) <==> r in rows && p(r)
    ensures |Where(rows, p)| <= |rows|
  {
    if rows != [] {
      WhereKeeps(rows[..|rows| - 1], p);
      assert rows == rows[..|rows| - 1] + [rows[|rows| - 1]];
    }
  }

  lemma WhereLast(s: seq<Row>, x: Row, p: Filter)
    ensures Where(s + [x], p) == if p(x) then Where(s, p) + [x] else Where(s, p)
  {
  }

  lemma InsertBefore(s: seq<Row>, x: Row, r: Row)
    ensures Insert(s + [x], r) == if x.ord <= r.ord then s + [x] + [r] else Insert(s, r) + [x]
  {
  }

  lemma {:induction false} WhereInsert(s: seq<Row>, r: Row, p: Filter)
    requires Sorted(s)
    ensures Where(Insert(s, r), p) == if p(r) then Insert(Where(s, p), r) else Where(s, p)
  {
    if s == [] || s[|s| - 1].ord <= r.ord {
      WhereLast(s, r, p);
      WhereKeeps(s, p);
      var w := Where(s, p);
      assert w != [] ==> w[|w| - 1] in s;
    } else {
      var init, last := s[..|s| - 1], s[|s| - 1];
      WhereInsert(init, r, p);
      WhereLast(Insert(init, r), last, p);
      if p(last) {
        InsertBefore(Where(init, p), last, r);
      }
    }
  }

  lemma SortLast(s: seq<Row>, x: Row)
    ensures Sort(s + [x]) == Insert(Sort(s), x)
  {
  }

  /** Filtering and sorting commute. */
  lemma {:induction false} SortWhere(rows: seq<Row>, p: Filter)
    ensures Sort(Where(rows, p)) == Where(Sort(rows), p)
  {
    if rows != [] {
      var init, last := rows[..|rows| - 1], rows[|rows| - 1];
      SortWhere(init, p);
      SortSorts(init);
      WhereInsert(Sort(init), last, p);
      if p(last) {
        SortLast(Where(init, p), last);
      }
    }
  }

  lemma {:induction false} WhereBoth(rows: seq<Row>, p: Filter, q: Filter, both: Filter)
    requires forall r :: both(r) <==> p(r) && q(r)
    ensures Where(rows, both) == Where(Where(rows, p), q)
  {
    if rows != [] {
      var init, last := rows[..|rows| - 1], rows[|rows| - 1];
      WhereBoth(init, p, q, both);
      if p(last) {
        WhereLast(Where(init, p), last, q);
      }
    }
  }

  lemma {:induction false} WhereIsSlice(s: seq<Row>, p: Filter, lo: nat, hi: nat)
    requires lo <= hi <= |s|
    requires forall i :: 0 <= i < |s| ==> (p(s[i]) <==> lo <= i < hi)
    ensures Where(s, p) == s[lo..hi]
  {
    if s != [] {
      var n := |s| - 1;
      var init := s[..n];
      if lo < hi == |s| {
        WhereIsSlice(init, p, lo, n);
        assert s[lo..hi] == init[lo..n] + [s[n]];
      } else if hi == |s| {
        WhereIsSlice(init, p, n, n);
        assert s[lo..hi] == init[n..n] == [];
      } else {
        WhereIsSlice(init, p, lo, hi);
        assert s[lo..hi] == init[lo..hi];
      }
    }
  }
}
