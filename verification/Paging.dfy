/**
 What one page of a cursor-paged list is.  The matching rows are laid out by ascending key;
 a page is the slice next to the cursor, or to a border, with the newest row on top.
 */
module Paging {
  import opened Wrappers
  import opened Sequences
  import opened ListQuery

  /** A page, and whether it claims that nothing lies above it, or below it. */
  datatype Page = Page(rows: seq<Row>, isStart: bool, isEnd: bool)

  function Matching(rows: seq<Row>, filter: Filter): seq<Row> {
    Sort(Where(rows, filter))
  }

  ghost predicate Ascending(keys: seq<nat>) {
    forall i, j :: 0 <= i <= j < |keys| ==> keys[i] <= keys[j]
  }

  ghost predicate StrictlyAscending(keys: seq<nat>) {
    forall i, j :: 0 <= i < j < |keys| ==> keys[i] < keys[j]
  }

  /** How many leading keys are below the bound. */
  function CountBelow(keys: seq<nat>, bound: nat): (n: nat)
    ensures n <= |keys|
    ensures forall i :: 0 <= i < n ==> keys[i] < bound
    ensures n < |keys| ==> bound <= keys[n]
  {
    if keys == [] || bound <= keys[0] then 0 else 1 + CountBelow(keys[1..], bound)
  }

  /** The indices of the rows the query can reach: all rows without a cursor; with one, those
      below it for a positive count and those above it for a negative one. */
  function Reach(keys: seq<nat>, cursor: Option<nat>, count: int): (r: (nat, nat))
    ensures 0 <= r.0 <= r.1 <= |keys|
  {
    match cursor
    case None => (0, |keys|)
    case Some(f) => if count > 0 then (0, CountBelow(keys, f)) else (CountBelow(keys, f + 1), |keys|)
  }

  /** The indices of the rows on the page: at most |count| of those in reach, nearest first. */
  function Window(keys: seq<nat>, cursor: Option<nat>, count: int): (w: (nat, nat))
    requires count != 0
    ensures 0 <= w.0 <= w.1 <= |keys|
  {
    var (a, b) := Reach(keys, cursor, count);
    if count > 0 then (Max(a, b - count), b) else (a, Min(b, a - count))
  }

  /** The page of a correct loader. */
  function PageOf(sorted: seq<Row>, keys: seq<nat>, cursor: Option<nat>, count: int): Page
    requires count != 0 && |keys| == |sorted|
  {
    var (lo, hi) := Window(keys, cursor, count);
    Page(Reversed(sorted[lo..hi]),
         if count > 0 then cursor.None? else hi == |sorted|,
         if count > 0 then lo == 0 else cursor.None?)
  }

  /** The page of the loaders that append the look-ahead row on any boundary and cut the end
      after reversing: bottom up and without a cursor, they drop the lowest row, not the extra
      one, when there are more rows than asked for. */
  function CutPageOf(sorted: seq<Row>, keys: seq<nat>, cursor: Option<nat>, count: int): Page
    requires count != 0 && |keys| == |sorted|
  {
    if cursor.None? && count < 0 && -count < |sorted|
    then PageOf(sorted, keys, cursor, count).(rows := Reversed(sorted[1..1 - count]))
    else PageOf(sorted, keys, cursor, count)
  }

  // ----------------------------------------------------- what the query finds

  /** The condition a list query adds to its filter. */
  function RangeOf(hasCursor: bool, first: nat, count: int): Range {
    if hasCursor then
      if count > 0 then Below(first) else Above(first)
    else
      if count > 0 then AtMost(first) else AtLeast(first)
  }

  /** The filter of a list query on the sort key. */
  function OnOrdinal(filter: Filter, range: Range): (f: Filter)
    ensures forall r :: f(r) <==> filter(r) && InRange(range, r.ord)
  {
    r => filter(r) && InRange(range, r.ord)
  }

  /** The filter of a list query on the primary key. */
  function OnPk(range: Range): (f: Filter)
    ensures forall r :: f(r) <==> InRange(range, r.pk)
  {
    (r: Row) => InRange(range, r.pk)
  }

  /** The border key a list without a cursor starts from. */
  function Border(keys: seq<nat>, count: int): nat
    requires keys != []
  {
    if count > 0 then keys[|keys| - 1] else keys[0]
  }

  lemma RangeReaches(keys: seq<nat>, cursor: Option<nat>, first: nat, count: int, i: nat)
    requires Ascending(keys) && i < |keys| && count != 0
    requires first == if cursor.Some? then cursor.value else Border(keys, count)
    ensures InRange(RangeOf(cursor.Some?, first, count), keys[i]) <==>
            Reach(keys, cursor, count).0 <= i < Reach(keys, cursor, count).1
  {
  }

  /** The result of the query, in ascending order, is the stretch of matching rows in reach. */
  lemma QueryFindsReach(rows: seq<Row>, filter: Filter, keys: seq<nat>, cursor: Option<nat>, first: nat, count: int,
                        q: Filter, both: Filter)
    requires count != 0 && Matching(rows, filter) != []
    requires |keys| == |Matching(rows, filter)| && Ascending(keys)
    requires first == if cursor.Some? then cursor.value else Border(keys, count)
    requires forall i :: 0 <= i < |keys| ==>
      (q(Matching(rows, filter)[i]) <==> InRange(RangeOf(cursor.Some?, first, count), keys[i]))
    requires forall r :: both(r) <==> filter(r) && q(r)
    ensures var (a, b) := Reach(keys, cursor, count);
            Sort(Where(rows, both)) == Matching(rows, filter)[a..b]
  {
    WhereBoth(rows, filter, q, both);
    SortWhere(Where(rows, filter), q);
    var sorted := Matching(rows, filter);
    var (a, b) := Reach(keys, cursor, count);
    forall i | 0 <= i < |sorted|
      ensures q(sorted[i]) <==> a <= i < b
    {
      RangeReaches(keys, cursor, first, count, i);
    }
    WhereIsSlice(sorted, q, a, b);
  }

  /** The rows fetched with one row of look-ahead, cut back to the count, are the window. */
  lemma FetchedIsWindow(sorted: seq<Row>, keys: seq<nat>, cursor: Option<nat>, count: int, limit: nat)
    requires count != 0 && |keys| == |sorted| && limit == if count > 0 then count else -count
    ensures var (a, b) := Reach(keys, cursor, count); var (lo, hi) := Window(keys, cursor, count);
            var found := if count < 0 then sorted[a..b] else Reversed(sorted[a..b]);
            && Take(Take(found, limit + 1), limit) == (if count < 0 then sorted[lo..hi] else Reversed(sorted[lo..hi]))
            && (|Take(found, limit + 1)| <= limit <==> lo == a && hi == b)
  {
    var (a, b) := Reach(keys, cursor, count);
    var (lo, hi) := Window(keys, cursor, count);
    var found := if count < 0 then sorted[a..b] else Reversed(sorted[a..b]);
    assert Take(Take(found, limit + 1), limit) == Take(found, limit);
    if count < 0 {
      assert Take(found, limit) == sorted[lo..hi];
    } else {
      assert Take(found, limit) == Reversed(sorted[lo..hi]);
    }
  }

  // ----------------------------------------------------------- whole requests

  function FindByPk(rows: seq<Row>, pk: nat): (r: Option<Row>)
    ensures r.Some? ==> r.value in rows && r.value.pk == pk
    ensures r.None? ==> forall x :: x in rows ==> x.pk != pk
  {
    if rows == [] then None
    else if rows[0].pk == pk then Some(rows[0])
    else FindByPk(rows[1..], pk)
  }

  /** A cursor as it comes in: it may not decode. */
  datatype Cursor = Malformed | Decoded(id: nat)

  /** A page of token transactions; the cursor is looked up in the whole collection. */
  function ErcPage(rows: seq<Row>, cursor: Option<nat>, count: int, filter: Filter): Result<Page> {
    var sorted := Matching(rows, filter);
    if count == 0 then Err
    else if sorted == [] then Ok(Page([], true, true))
    else if cursor.None? then Ok(PageOf(sorted, Ords(sorted), None, count))
    else
      match FindByPk(rows, cursor.value)
      case None => Err
      case Some(r) => Ok(PageOf(sorted, Ords(sorted), Some(r.ord), count))
  }

  /** A page of delegations; a cursor of no matching row counts as key zero, since the error of
      its lookup is dropped. */
  function DelegationPage(rows: seq<Row>, cursor: Option<Cursor>, count: int, filter: Filter): Result<Page> {
    var sorted := Matching(rows, filter);
    if count == 0 then Err
    else if sorted == [] then Ok(Page([], true, true))
    else
      match cursor
      case None => Ok(CutPageOf(sorted, Ords(sorted), None, count))
      case Some(Malformed) => Err
      case Some(Decoded(pk)) =>
        var found := FindByPk(Where(rows, filter), pk);
        var first := if found.Some? then found.value.ord else 0;
        Ok(CutPageOf(sorted, Ords(sorted), Some(first), count))
  }

  /** Epochs end in the order of their numbers. */
  ghost predicate EndsFollowIds(rows: seq<Row>) {
    forall r1, r2 :: r1 in rows && r2 in rows && r1.ord <= r2.ord ==> r1.pk <= r2.pk
  }

  /** A page of epochs, keyed by their numbers; any number serves as a cursor. */
  function EpochPage(rows: seq<Row>, cursor: Option<Cursor>, count: int): Result<Page> {
    var sorted := Sort(rows);
    if count == 0 then Err
    else if sorted == [] then Ok(Page([], true, true))
    else
      match cursor
      case None => Ok(CutPageOf(sorted, Pks(sorted), None, count))
      case Some(Malformed) => Err
      case Some(Decoded(id)) => Ok(CutPageOf(sorted, Pks(sorted), Some(id), count))
  }
}
