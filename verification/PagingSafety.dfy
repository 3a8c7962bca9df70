/** Pages next to each other: boundary flags, walks over a whole list, and the two loaders that
    cut their end. */
module PagingSafety {
  import opened Wrappers
  import opened Sequences
  import opened ListQuery
  import opened Paging

  ghost predicate DistinctPks(rows: seq<Row>) {
    forall r1, r2 :: r1 in rows && r2 in rows && r1.pk == r2.pk ==> r1 == r2
  }

  lemma CountBelowAt(keys: seq<nat>, k: nat)
    requires StrictlyAscending(keys) && k < |keys|
    ensures CountBelow(keys, keys[k]) == k && CountBelow(keys, keys[k] + 1) == k + 1
  {
    assert forall i :: 0 <= i < k ==> keys[i] < keys[k];
    if k + 1 < |keys| {
      assert keys[k] < keys[k + 1];
    }
  }

  lemma MatchingRow(rows: seq<Row>, filter: Filter, k: nat)
    requires DistinctPks(rows) && k < |Matching(rows, filter)|
    ensures FindByPk(rows, Matching(rows, filter)[k].pk) == Some(Matching(rows, filter)[k])
    ensures FindByPk(Where(rows, filter), Matching(rows, filter)[k].pk) == Some(Matching(rows, filter)[k])
  {
    SortSorts(Where(rows, filter));
    WhereKeeps(rows, filter);
    var r := Matching(rows, filter)[k];
    assert r in Where(rows, filter) && r in rows;
  }

  /** Next to the k-th matching row, or to a border, the page holds the adjacent rows, newest on
      top, and its flags tell exactly whether a matching row lies above or below it. */
  lemma PageIsAdjacent(sorted: seq<Row>, keys: seq<nat>, cursor: Option<nat>, k: nat, count: int)
    requires count != 0 && |keys| == |sorted| && StrictlyAscending(keys)
    requires cursor.Some? ==> k < |keys| && cursor == Some(keys[k])
    ensures var n := |sorted|; var page := PageOf(sorted, keys, cursor, count);
            var lo := if count > 0 then Max(0, (if cursor.Some? then k else n) - count)
                      else if cursor.Some? then k + 1 else 0;
            var hi := if count > 0 then (if cursor.Some? then k else n) else Min(n, lo - count);
            && page.rows == Reversed(sorted[lo..hi])
            && (page.isEnd <==> lo == 0)
            && (page.isStart <==> hi == n)
  {
    if cursor.Some? {
      CountBelowAt(keys, k);
    }
  }

  // ------------------------------------------------------------------ walks

  type Pager = (Option<nat>, int) -> Result<Page>

  ghost predicate ServesErc(pager: Pager, rows: seq<Row>, filter: Filter) {
    forall cursor, count :: pager(cursor, count) == ErcPage(rows, cursor, count, filter)
  }

  ghost predicate ServesDelegations(pager: Pager, rows: seq<Row>, filter: Filter) {
    forall cursor: Option<nat>, count ::
      pager(cursor, count) ==
      DelegationPage(rows, if cursor.Some? then Some(Decoded(cursor.value)) else None, count, filter)
  }

  ghost predicate ServesEpochs(pager: Pager, rows: seq<Row>) {
    forall cursor: Option<nat>, count ::
      pager(cursor, count) ==
      EpochPage(rows, if cursor.Some? then Some(Decoded(cursor.value)) else None, count)
  }

  function Sum(sizes: seq<nat>): nat {
    if sizes == [] then 0 else sizes[0] + Sum(sizes[1..])
  }

  ghost predicate Positive(sizes: seq<nat>) {
    forall i :: 0 <= i < |sizes| ==> 0 < sizes[i]
  }

  /** The count that asks for so many rows upwards. */
  function Up(size: nat): int {
    0 - size
  }

  /** Pages from the top down, each continuing at the last row of the one before, until one
      says it is the end; and whether one did. */
  function WalkDown(pager: Pager, cursor: Option<nat>, sizes: seq<nat>): (seq<Row>, bool)
    decreases |sizes|
  {
    if sizes == [] then ([], false)
    else
      match pager(cursor, sizes[0])
      case Err => ([], false)
      case Ok(page) =>
        if page.isEnd || page.rows == [] then (page.rows, page.isEnd)
        else
          var (rest, ended) := WalkDown(pager, Some(page.rows[|page.rows| - 1].pk), sizes[1..]);
          (page.rows + rest, ended)
  }

  /** Pages from the bottom up, each continuing at the first row of the one before. */
  function WalkUp(pager: Pager, cursor: Option<nat>, sizes: seq<nat>): (seq<Row>, bool)
    decreases |sizes|
  {
    if sizes == [] then ([], false)
    else
      match pager(cursor, Up(sizes[0]))
      case Err => ([], false)
      case Ok(page) =>
        if page.isStart || page.rows == [] then (page.rows, page.isStart)
        else
          var (rest, ended) := WalkUp(pager, Some(page.rows[0].pk), sizes[1..]);
          (rest + page.rows, ended)
  }

  /** The page of the rows right below position `hi`. */
  function PageBelow(sorted: seq<Row>, hi: nat, size: nat): Page
    requires hi <= |sorted|
  {
    var lo := Max(0, hi - size);
    Page(Reversed(sorted[lo..hi]), hi == |sorted|, lo == 0)
  }

  /** The page of the rows from position `lo` up. */
  function PageAbove(sorted: seq<Row>, lo: nat, size: nat): Page
    requires lo <= |sorted|
  {
    var hi := Min(|sorted|, lo + size);
    Page(Reversed(sorted[lo..hi]), hi == |sorted|, lo == 0)
  }

  ghost predicate PagesDown(pager: Pager, sorted: seq<Row>) {
    && (forall size: nat :: 0 < size ==> pager(None, size) == Ok(PageBelow(sorted, |sorted|, size)))
    && (forall k: nat, size: nat {:trigger pager(Some(sorted[k].pk), size)} :: k < |sorted| && 0 < size ==>
          pager(Some(sorted[k].pk), size) == Ok(PageBelow(sorted, k, size)))
  }

  ghost predicate PagesUpFrom(pager: Pager, sorted: seq<Row>) {
    forall k: nat, size: nat {:trigger pager(Some(sorted[k].pk), Up(size))} :: k < |sorted| && 0 < size ==>
      pager(Some(sorted[k].pk), Up(size)) == Ok(PageAbove(sorted, k + 1, size))
  }

  ghost predicate PagesUp(pager: Pager, sorted: seq<Row>) {
    && (forall size: nat {:trigger pager(None, Up(size))} :: 0 < size ==>
          pager(None, Up(size)) == Ok(PageAbove(sorted, 0, size)))
    && PagesUpFrom(pager, sorted)
  }

  /** The pages of the token transaction loader are the neighbouring rows. */
  lemma ErcPagesDown(pager: Pager, rows: seq<Row>, filter: Filter)
    requires ServesErc(pager, rows, filter) && DistinctPks(rows)
    requires StrictlyAscending(Ords(Matching(rows, filter)))
    ensures PagesDown(pager, Matching(rows, filter))
  {
    var sorted := Matching(rows, filter);
    forall size: nat | 0 < size
      ensures ErcPage(rows, None, size, filter) == Ok(PageBelow(sorted, |sorted|, size))
    {
      PageIsAdjacent(sorted, Ords(sorted), None, 0, size);
    }
    forall k: nat, size: nat | k < |sorted| && 0 < size
      ensures ErcPage(rows, Some(sorted[k].pk), size, filter) == Ok(PageBelow(sorted, k, size))
    {
      MatchingRow(rows, filter, k);
      PageIsAdjacent(sorted, Ords(sorted), Some(sorted[k].ord), k, size);
    }
  }

  lemma ErcPagesUp(pager: Pager, rows: seq<Row>, filter: Filter)
    requires ServesErc(pager, rows, filter) && DistinctPks(rows)
    requires StrictlyAscending(Ords(Matching(rows, filter)))
    ensures PagesUp(pager, Matching(rows, filter))
  {
    forall size: nat | 0 < size
      ensures pager(None, Up(size)) == Ok(PageAbove(Matching(rows, filter), 0, size))
    {
      ErcFirstPageUp(rows, filter, size);
    }
    forall k: nat, size: nat | k < |Matching(rows, filter)| && 0 < size
      ensures pager(Some(Matching(rows, filter)[k].pk), Up(size)) == Ok(PageAbove(Matching(rows, filter), k + 1, size))
    {
      ErcPageAbove(rows, filter, k, size);
    }
  }

  lemma ErcPageAbove(rows: seq<Row>, filter: Filter, k: nat, size: nat)
    requires DistinctPks(rows) && StrictlyAscending(Ords(Matching(rows, filter)))
    requires k < |Matching(rows, filter)| && 0 < size
    ensures ErcPage(rows, Some(Matching(rows, filter)[k].pk), Up(size), filter) ==
            Ok(PageAbove(Matching(rows, filter), k + 1, size))
  {
    var sorted := Matching(rows, filter);
    ErcPageAboveRow(rows, filter, k, size);
    assert CountBelow(Ords(sorted), sorted[k].ord + 1) == k + 1 by {
      CountBelowAt(Ords(sorted), k);
    }
    AboveIsNoEnd(sorted, k + 1, size);
  }

  lemma AboveIsNoEnd(sorted: seq<Row>, lo: nat, size: nat)
    requires 0 < lo <= |sorted|
    ensures PageAbove(sorted, lo, size).(isEnd := false) == PageAbove(sorted, lo, size)
  {
  }

  /** Newest-first stretches put together. */
  lemma Joined(sorted: seq<Row>, a: nat, b: nat, c: nat)
    requires a <= b <= c <= |sorted|
    ensures Reversed(sorted[b..c]) + Reversed(sorted[a..b]) == Reversed(sorted[a..c])
    ensures b < c ==> Reversed(sorted[b..c]) != [] && Reversed(sorted[b..c])[c - b - 1] == sorted[b]
    ensures b < c ==> Reversed(sorted[b..c])[0] == sorted[c - 1]
    ensures a < b ==> Reversed(sorted[a..b]) != [] && Reversed(sorted[a..b])[0] == sorted[b - 1]
  {
  }

  lemma TakeNewest(sorted: seq<Row>, count: nat)
    ensures Take(Reversed(sorted), count) == Reversed(sorted[Max(0, |sorted| - count)..|sorted|])
    ensures Reversed(Take(sorted, count)) == Reversed(sorted[0..Min(|sorted|, count)])
  {
  }

  /** A page that is not the last one is followed by the rest of the walk. */
  lemma WalkUpContinues(pager: Pager, cursor: Option<nat>, sizes: seq<nat>, page: Page)
    requires sizes != [] && pager(cursor, Up(sizes[0])) == Ok(page)
    ensures WalkUp(pager, cursor, sizes) ==
            if page.isStart || page.rows == [] then (page.rows, page.isStart)
            else
              var (rest, ended) := WalkUp(pager, Some(page.rows[0].pk), sizes[1..]);
              (rest + page.rows, ended)
  {
  }

  lemma WalkDownContinues(pager: Pager, cursor: Option<nat>, sizes: seq<nat>, page: Page)
    requires sizes != [] && pager(cursor, sizes[0]) == Ok(page)
    ensures WalkDown(pager, cursor, sizes) ==
            if page.isEnd || page.rows == [] then (page.rows, page.isEnd)
            else
              var (rest, ended) := WalkDown(pager, Some(page.rows[|page.rows| - 1].pk), sizes[1..]);
              (page.rows + rest, ended)
  {
  }

  lemma {:induction false} WalkDownFrom(pager: Pager, sorted: seq<Row>, cursor: Option<nat>, hi: nat, sizes: seq<nat>)
    requires PagesDown(pager, sorted) && Positive(sizes)
    requires if cursor.None? then hi == |sorted| else hi < |sorted| && cursor == Some(sorted[hi].pk)
    ensures WalkDown(pager, cursor, sizes) ==
            (Reversed(sorted[Max(0, hi - Sum(sizes))..hi]), sizes != [] && hi <= Sum(sizes))
    decreases |sizes|, 1
  {
    if sizes != [] {
      var page := PageBelow(sorted, hi, sizes[0]);
      assert pager(cursor, sizes[0]) == Ok(page);
      if hi <= sizes[0] {
        WalkDownContinues(pager, cursor, sizes, page);
        assert Max(0, hi - Sum(sizes)) == 0;
      } else {
        WalkDownAfter(pager, sorted, cursor, hi - sizes[0], hi, sizes, page.isStart);
      }
    }
  }

  /** A walk down whose first page holds the rows from `lo` to `hi`, and not the end, goes on
      from there. */
  lemma {:induction false} WalkDownAfter(pager: Pager, sorted: seq<Row>, cursor: Option<nat>, lo: nat, hi: nat,
                                         sizes: seq<nat>, isStart: bool)
    requires PagesDown(pager, sorted) && Positive(sizes) && sizes != [] && 0 < lo < hi == lo + sizes[0] <= |sorted|
    requires pager(cursor, sizes[0]) == Ok(Page(Reversed(sorted[lo..hi]), isStart, false))
    ensures WalkDown(pager, cursor, sizes) == (Reversed(sorted[Max(0, hi - Sum(sizes))..hi]), hi <= Sum(sizes))
    decreases |sizes|, 0
  {
    var page, more := Page(Reversed(sorted[lo..hi]), isStart, false), Sum(sizes[1..]);
    JoinedDown(sorted, lo, hi, more);
    WalkDownGoesOn(pager, cursor, sizes, page);
    WalkDownFrom(pager, sorted, Some(sorted[lo].pk), lo, sizes[1..]);
    assert Sum(sizes) == sizes[0] + more;
  }

  lemma WalkDownGoesOn(pager: Pager, cursor: Option<nat>, sizes: seq<nat>, page: Page)
    requires sizes != [] && pager(cursor, sizes[0]) == Ok(page) && !page.isEnd && page.rows != []
    ensures var (rest, ended) := WalkDown(pager, Some(page.rows[|page.rows| - 1].pk), sizes[1..]);
            WalkDown(pager, cursor, sizes) == (page.rows + rest, ended)
  {
  }

  lemma JoinedDown(sorted: seq<Row>, lo: nat, hi: nat, more: nat)
    requires lo < hi <= |sorted|
    ensures Reversed(sorted[lo..hi]) != [] && Reversed(sorted[lo..hi])[hi - lo - 1] == sorted[lo]
    ensures Reversed(sorted[lo..hi]) + Reversed(sorted[Max(0, lo - more)..lo]) ==
            Reversed(sorted[Max(0, lo - more)..hi])
  {
    Joined(sorted, Max(0, lo - more), lo, hi);
  }

  /** Walking down visits every matching row once, newest first, and the end is announced exactly
      when all of them have been visited. */
  lemma WalkDownVisitsAll(pager: Pager, rows: seq<Row>, filter: Filter, sizes: seq<nat>)
    requires ServesErc(pager, rows, filter) && DistinctPks(rows) && Positive(sizes) && sizes != []
    requires StrictlyAscending(Ords(Matching(rows, filter)))
    ensures var newest := Reversed(Matching(rows, filter));
            WalkDown(pager, None, sizes) == (Take(newest, Sum(sizes)), |newest| <= Sum(sizes))
  {
    ErcPagesDown(pager, rows, filter);
    WalkDownAll(pager, Matching(rows, filter), sizes);
  }

  lemma WalkDownAll(pager: Pager, sorted: seq<Row>, sizes: seq<nat>)
    requires PagesDown(pager, sorted) && Positive(sizes) && sizes != []
    ensures WalkDown(pager, None, sizes) == (Take(Reversed(sorted), Sum(sizes)), |sorted| <= Sum(sizes))
  {
    WalkDownFrom(pager, sorted, None, |sorted|, sizes);
    TakeNewest(sorted, Sum(sizes));
  }

  lemma {:induction false} WalkUpFrom(pager: Pager, sorted: seq<Row>, lo: nat, sizes: seq<nat>)
    requires PagesUpFrom(pager, sorted) && Positive(sizes) && 0 < lo <= |sorted|
    ensures WalkUp(pager, Some(sorted[lo - 1].pk), sizes) ==
            (Reversed(sorted[lo..Min(|sorted|, lo + Sum(sizes))]), sizes != [] && |sorted| <= lo + Sum(sizes))
    decreases |sizes|, 1
  {
    if sizes != [] {
      var page := PageAbove(sorted, lo, sizes[0]);
      assert pager(Some(sorted[lo - 1].pk), Up(sizes[0])) == Ok(page);
      if |sorted| <= lo + sizes[0] {
        WalkUpContinues(pager, Some(sorted[lo - 1].pk), sizes, page);
        assert Min(|sorted|, lo + Sum(sizes)) == |sorted|;
      } else {
        WalkUpAfter(pager, sorted, Some(sorted[lo - 1].pk), lo, lo + sizes[0], sizes, page.isEnd);
        SumOfOne(sizes);
      }
    }
  }

  /** A walk up whose first page holds the rows from `lo` to `hi`, and not the start, goes on
      from there. */
  lemma {:induction false} WalkUpAfter(pager: Pager, sorted: seq<Row>, cursor: Option<nat>, lo: nat, hi: nat,
                                       sizes: seq<nat>, isEnd: bool)
    requires PagesUpFrom(pager, sorted) && Positive(sizes) && sizes != [] && lo < hi == lo + sizes[0] <= |sorted|
    requires pager(cursor, Up(sizes[0])) == Ok(Page(Reversed(sorted[lo..hi]), false, isEnd))
    ensures WalkUp(pager, cursor, sizes) ==
            (Reversed(sorted[lo..Min(|sorted|, lo + Sum(sizes))]), |sizes| > 1 && |sorted| <= lo + Sum(sizes))
    decreases |sizes|, 0
  {
    var page, more := Page(Reversed(sorted[lo..hi]), false, isEnd), Sum(sizes[1..]);
    JoinedUp(sorted, lo, hi, more);
    WalkUpGoesOn(pager, cursor, sizes, page);
    WalkUpFrom(pager, sorted, hi, sizes[1..]);
    assert Sum(sizes) == sizes[0] + more;
  }

  lemma WalkUpGoesOn(pager: Pager, cursor: Option<nat>, sizes: seq<nat>, page: Page)
    requires sizes != [] && pager(cursor, Up(sizes[0])) == Ok(page) && !page.isStart && page.rows != []
    ensures var (rest, ended) := WalkUp(pager, Some(page.rows[0].pk), sizes[1..]);
            WalkUp(pager, cursor, sizes) == (rest + page.rows, ended)
  {
  }

  lemma JoinedUp(sorted: seq<Row>, lo: nat, hi: nat, more: nat)
    requires lo < hi <= |sorted|
    ensures Reversed(sorted[lo..hi]) != [] && Reversed(sorted[lo..hi])[0] == sorted[hi - 1]
    ensures Reversed(sorted[hi..Min(|sorted|, hi + more)]) + Reversed(sorted[lo..hi]) ==
            Reversed(sorted[lo..Min(|sorted|, hi + more)])
  {
    Joined(sorted, lo, hi, Min(|sorted|, hi + more));
  }

  /** Walking up visits every matching row once, the newest last, and announces the start exactly
      when all of them have been visited. */
  lemma WalkUpVisitsAll(pager: Pager, rows: seq<Row>, filter: Filter, sizes: seq<nat>)
    requires ServesErc(pager, rows, filter) && DistinctPks(rows) && Positive(sizes) && sizes != []
    requires StrictlyAscending(Ords(Matching(rows, filter)))
    ensures var sorted := Matching(rows, filter);
            WalkUp(pager, None, sizes) == (Reversed(Take(sorted, Sum(sizes))), |sorted| <= Sum(sizes))
  {
    ErcPagesUp(pager, rows, filter);
    WalkUpAll(pager, Matching(rows, filter), sizes);
  }

  lemma WalkUpAll(pager: Pager, sorted: seq<Row>, sizes: seq<nat>)
    requires PagesUp(pager, sorted) && Positive(sizes) && sizes != []
    ensures WalkUp(pager, None, sizes) == (Reversed(Take(sorted, Sum(sizes))), |sorted| <= Sum(sizes))
  {
    WalkUpFromBottom(pager, sorted, sizes);
    TakeNewest(sorted, Sum(sizes));
  }

  lemma WalkUpFromBottom(pager: Pager, sorted: seq<Row>, sizes: seq<nat>)
    requires PagesUp(pager, sorted) && Positive(sizes) && sizes != []
    ensures WalkUp(pager, None, sizes) ==
            (Reversed(sorted[0..Min(|sorted|, Sum(sizes))]), |sorted| <= Sum(sizes))
  {
    var page := PageAbove(sorted, 0, sizes[0]);
    assert pager(None, Up(sizes[0])) == Ok(page);
    if |sorted| <= sizes[0] {
      WalkUpContinues(pager, None, sizes, page);
    } else {
      WalkUpAfter(pager, sorted, None, 0, sizes[0], sizes, true);
      SumOfOne(sizes);
    }
  }

  lemma SumOfOne(sizes: seq<nat>)
    ensures |sizes| == 1 ==> Sum(sizes) == sizes[0]
  {
    if |sizes| == 1 {
      assert Sum(sizes) == sizes[0] + Sum([]);
    }
  }

  // ---------------------------------------------------- rows with equal keys

  /** Whatever the keys, a page below a row holds only rows with smaller keys. */
  ghost predicate PagesBelowKeys(pager: Pager, sorted: seq<Row>) {
    && (forall size: nat :: 0 < size ==> pager(None, size) == Ok(PageBelow(sorted, |sorted|, size)))
    && (forall k: nat, size: nat {:trigger pager(Some(sorted[k].pk), size)} :: k < |sorted| && 0 < size ==>
          pager(Some(sorted[k].pk), size) ==
          Ok(PageBelow(sorted, CountBelow(Ords(sorted), sorted[k].ord), size).(isStart := false)))
  }

  lemma ErcPagesBelowKeys(pager: Pager, rows: seq<Row>, filter: Filter)
    requires ServesErc(pager, rows, filter) && DistinctPks(rows)
    ensures PagesBelowKeys(pager, Matching(rows, filter))
  {
    var sorted := Matching(rows, filter);
    forall k: nat, size: nat | k < |sorted| && 0 < size
      ensures ErcPage(rows, Some(sorted[k].pk), size, filter) ==
              Ok(PageBelow(sorted, CountBelow(Ords(sorted), sorted[k].ord), size).(isStart := false))
    {
      MatchingRow(rows, filter, k);
    }
  }

  /** From a row on, a walk visits no more rows than lie below it. */
  lemma {:induction false} WalkDownBound(pager: Pager, sorted: seq<Row>, k: nat, sizes: seq<nat>)
    requires PagesBelowKeys(pager, sorted) && Positive(sizes) && k < |sorted|
    ensures |WalkDown(pager, Some(sorted[k].pk), sizes).0| <= CountBelow(Ords(sorted), sorted[k].ord) <= k
    decreases |sizes|
  {
    var keys := Ords(sorted);
    var b := CountBelow(keys, keys[k]);
    if sizes != [] {
      var lo: int := Max(0, (b as int) - sizes[0]);
      assert pager(Some(sorted[k].pk), sizes[0]) == Ok(PageBelow(sorted, b, sizes[0]).(isStart := false));
      if lo != 0 {
        assert Reversed(sorted[lo..b])[b - lo - 1] == sorted[lo];
        WalkDownBound(pager, sorted, lo, sizes[1..]);
      }
    }
  }

  /** Whatever the keys, a page above a row holds only rows with larger keys. */
  ghost predicate PagesAboveKeys(pager: Pager, sorted: seq<Row>) {
    && (forall size: nat {:trigger pager(None, Up(size))} :: 0 < size ==>
          pager(None, Up(size)) == Ok(PageAbove(sorted, 0, size)))
    && (forall k: nat, size: nat {:trigger pager(Some(sorted[k].pk), Up(size))} :: k < |sorted| && 0 < size ==>
          pager(Some(sorted[k].pk), Up(size)) ==
          Ok(PageAbove(sorted, CountBelow(Ords(sorted), sorted[k].ord + 1), size).(isEnd := false)))
  }

  lemma ErcPagesAboveKeys(pager: Pager, rows: seq<Row>, filter: Filter)
    requires ServesErc(pager, rows, filter) && DistinctPks(rows)
    ensures PagesAboveKeys(pager, Matching(rows, filter))
  {
    forall size: nat | 0 < size
      ensures pager(None, Up(size)) == Ok(PageAbove(Matching(rows, filter), 0, size))
    {
      ErcFirstPageUp(rows, filter, size);
    }
    forall k: nat, size: nat | k < |Matching(rows, filter)| && 0 < size
      ensures var sorted := Matching(rows, filter);
              pager(Some(sorted[k].pk), Up(size)) ==
              Ok(PageAbove(sorted, CountBelow(Ords(sorted), sorted[k].ord + 1), size).(isEnd := false))
    {
      ErcPageAboveRow(rows, filter, k, size);
    }
  }

  lemma ErcFirstPageUp(rows: seq<Row>, filter: Filter, size: nat)
    requires 0 < size
    ensures ErcPage(rows, None, Up(size), filter) == Ok(PageAbove(Matching(rows, filter), 0, size))
  {
  }

  lemma PageAboveKey(sorted: seq<Row>, keys: seq<nat>, key: nat, size: nat)
    requires |keys| == |sorted| && 0 < size
    ensures PageOf(sorted, keys, Some(key), Up(size)) ==
            PageAbove(sorted, CountBelow(keys, key + 1), size).(isEnd := false)
  {
  }

  lemma ErcPageAboveRow(rows: seq<Row>, filter: Filter, k: nat, size: nat)
    requires DistinctPks(rows) && k < |Matching(rows, filter)| && 0 < size
    ensures var sorted := Matching(rows, filter);
            ErcPage(rows, Some(sorted[k].pk), Up(size), filter) ==
            Ok(PageAbove(sorted, CountBelow(Ords(sorted), sorted[k].ord + 1), size).(isEnd := false))
  {
    var sorted := Matching(rows, filter);
    assert ErcPage(rows, Some(sorted[k].pk), Up(size), filter) ==
           Ok(PageOf(sorted, Ords(sorted), Some(sorted[k].ord), Up(size))) by {
      MatchingRow(rows, filter, k);
    }
    PageAboveKey(sorted, Ords(sorted), sorted[k].ord, size);
  }

  /** The rows with larger keys than a row lie above it. */
  lemma LargerLieAbove(sorted: seq<Row>, k: nat)
    requires Ascending(Ords(sorted)) && k < |sorted|
    ensures k < CountBelow(Ords(sorted), sorted[k].ord + 1) <= |sorted|
    ensures k + 1 < |sorted| && sorted[k].ord == sorted[k + 1].ord ==>
              k + 1 < CountBelow(Ords(sorted), sorted[k].ord + 1)
  {
    var keys := Ords(sorted);
    var c := CountBelow(keys, sorted[k].ord + 1);
    if c < |keys| {
      assert keys[k] < keys[c];
    }
  }

  /** A page of the rows from `c` up, and a rest bounded by what lies above the page. */
  lemma WalkUpStep(pager: Pager, sorted: seq<Row>, cursor: Option<nat>, c: nat, sizes: seq<nat>)
    requires c <= |sorted| && sizes != [] && 0 < sizes[0]
    requires pager(cursor, Up(sizes[0])) == Ok(PageAbove(sorted, c, sizes[0]).(isEnd := false))
    requires c + sizes[0] < |sorted| ==>
      |WalkUp(pager, Some(sorted[c + sizes[0] - 1].pk), sizes[1..]).0| <= |sorted| - (c + sizes[0])
    ensures |WalkUp(pager, cursor, sizes).0| <= |sorted| - c
  {
    var page := PageAbove(sorted, c, sizes[0]).(isEnd := false);
    WalkUpContinues(pager, cursor, sizes, page);
    if c + sizes[0] < |sorted| {
      assert page.rows[0] == sorted[c + sizes[0] - 1];
    }
  }

  /** From a row on, a walk up visits no more rows than lie above it. */
  lemma {:induction false} WalkUpBound(pager: Pager, sorted: seq<Row>, k: nat, sizes: seq<nat>)
    requires PagesAboveKeys(pager, sorted) && Positive(sizes) && k < |sorted| && Ascending(Ords(sorted))
    ensures |WalkUp(pager, Some(sorted[k].pk), sizes).0| <= |sorted| - CountBelow(Ords(sorted), sorted[k].ord + 1)
    decreases |sizes|
  {
    if sizes != [] {
      var c := CountBelow(Ords(sorted), sorted[k].ord + 1);
      var last := c + sizes[0] - 1;
      if last + 1 < |sorted| {
        WalkUpBound(pager, sorted, last, sizes[1..]);
        LargerLieAbove(sorted, last);
      }
      assert pager(Some(sorted[k].pk), Up(sizes[0])) == Ok(PageAbove(sorted, c, sizes[0]).(isEnd := false));
      WalkUpStep(pager, sorted, Some(sorted[k].pk), c, sizes);
    }
  }

  ghost predicate WalksDownAreComplete(pager: Pager, rows: seq<Row>, filter: Filter) {
    forall sizes: seq<nat> :: Positive(sizes) && |Matching(rows, filter)| <= Sum(sizes) && sizes != [] ==>
      WalkDown(pager, None, sizes).0 == Reversed(Matching(rows, filter))
  }

  ghost predicate WalksUpAreComplete(pager: Pager, rows: seq<Row>, filter: Filter) {
    forall sizes: seq<nat> :: Positive(sizes) && |Matching(rows, filter)| <= Sum(sizes) && sizes != [] ==>
      WalkUp(pager, None, sizes).0 == Reversed(Matching(rows, filter))
  }

  lemma EqualKeysAreSkipped(pager: Pager, sorted: seq<Row>, i: nat) returns (sizes: seq<nat>)
    requires PagesBelowKeys(pager, sorted)
    requires i + 1 < |sorted| && Ascending(Ords(sorted)) && sorted[i].ord == sorted[i + 1].ord
    ensures Positive(sizes) && |sorted| <= Sum(sizes) && sizes != []
    ensures |WalkDown(pager, None, sizes).0| < |sorted|
  {
    var n := |sorted|;
    sizes := [n - 1 - i, n];
    assert sizes[1..] == [n] && Sum([n]) == n + Sum([n][1..]);
    WalkAcrossTie(pager, sorted, i);
  }

  /** A page that ends between two rows of equal keys is followed by rows below both. */
  lemma WalkAcrossTie(pager: Pager, sorted: seq<Row>, i: nat)
    requires PagesBelowKeys(pager, sorted)
    requires i + 1 < |sorted| && Ascending(Ords(sorted)) && sorted[i].ord == sorted[i + 1].ord
    ensures |WalkDown(pager, None, [|sorted| - 1 - i, |sorted|]).0| < |sorted|
  {
    var n, bound := |sorted|, sorted[i + 1].ord;
    var page := PageBelow(sorted, n, n - 1 - i);
    assert page.rows == Reversed(sorted[i + 1..n]) && page.rows[n - 2 - i] == sorted[i + 1];
    WalkDownContinues(pager, None, [n - 1 - i, n], page);
    assert [n - 1 - i, n][1..] == [n];
    assert CountBelow(Ords(sorted), bound) <= i by {
      assert Ords(sorted)[i] == bound;
    }
    WalkDownBound(pager, sorted, i + 1, [n]);
  }

  lemma EqualKeysAreSkippedUp(pager: Pager, sorted: seq<Row>, i: nat) returns (sizes: seq<nat>)
    requires PagesAboveKeys(pager, sorted)
    requires i + 1 < |sorted| && Ascending(Ords(sorted)) && sorted[i].ord == sorted[i + 1].ord
    ensures Positive(sizes) && |sorted| <= Sum(sizes) && sizes != []
    ensures |WalkUp(pager, None, sizes).0| < |sorted|
  {
    var n := |sorted|;
    sizes := [i + 1, n];
    assert sizes[1..] == [n] && Sum([n]) == n + Sum([n][1..]);
    WalkUpAcrossTie(pager, sorted, i);
  }

  /** A page that starts between two rows of equal keys is followed by rows above both. */
  lemma WalkUpAcrossTie(pager: Pager, sorted: seq<Row>, i: nat)
    requires PagesAboveKeys(pager, sorted)
    requires i + 1 < |sorted| && Ascending(Ords(sorted)) && sorted[i].ord == sorted[i + 1].ord
    ensures |WalkUp(pager, None, [i + 1, |sorted|]).0| < |sorted|
  {
    var page := PageAbove(sorted, 0, i + 1);
    assert pager(None, Up(i + 1)) == Ok(page);
    assert page.rows == Reversed(sorted[0..i + 1]) && page.rows[0] == sorted[i];
    WalkUpContinues(pager, None, [i + 1, |sorted|], page);
    assert [i + 1, |sorted|][1..] == [|sorted|];
    LargerLieAbove(sorted, i);
    WalkUpBound(pager, sorted, i, [|sorted|]);
  }

  /** Every walk, down or up, is complete exactly when no two matching rows share their sort key. */
  lemma WalksCompleteExactlyWhenKeysDiffer(pager: Pager, rows: seq<Row>, filter: Filter)
    requires ServesErc(pager, rows, filter) && DistinctPks(rows)
    ensures WalksDownAreComplete(pager, rows, filter) <==> StrictlyAscending(Ords(Matching(rows, filter)))
    ensures WalksUpAreComplete(pager, rows, filter) <==> StrictlyAscending(Ords(Matching(rows, filter)))
  {
    if StrictlyAscending(Ords(Matching(rows, filter))) {
      ErcPagesDown(pager, rows, filter);
      ErcPagesUp(pager, rows, filter);
      WalksAreComplete(pager, rows, filter);
    } else {
      TiesAreSkipped(pager, rows, filter);
    }
  }

  lemma WalksAreComplete(pager: Pager, rows: seq<Row>, filter: Filter)
    requires PagesDown(pager, Matching(rows, filter)) && PagesUp(pager, Matching(rows, filter))
    ensures WalksDownAreComplete(pager, rows, filter) && WalksUpAreComplete(pager, rows, filter)
  {
    forall sizes: seq<nat> | Positive(sizes) && |Matching(rows, filter)| <= Sum(sizes) && sizes != []
      ensures WalkDown(pager, None, sizes).0 == Reversed(Matching(rows, filter))
    {
      WholeWalkDown(pager, Matching(rows, filter), sizes);
    }
    forall sizes: seq<nat> | Positive(sizes) && |Matching(rows, filter)| <= Sum(sizes) && sizes != []
      ensures WalkUp(pager, None, sizes).0 == Reversed(Matching(rows, filter))
    {
      WholeWalkUp(pager, Matching(rows, filter), sizes);
    }
  }

  lemma WholeWalkDown(pager: Pager, sorted: seq<Row>, sizes: seq<nat>)
    requires PagesDown(pager, sorted) && Positive(sizes) && sizes != [] && |sorted| <= Sum(sizes)
    ensures WalkDown(pager, None, sizes).0 == Reversed(sorted)
  {
    WalkDownAll(pager, sorted, sizes);
  }

  lemma WholeWalkUp(pager: Pager, sorted: seq<Row>, sizes: seq<nat>)
    requires PagesUp(pager, sorted) && Positive(sizes) && sizes != [] && |sorted| <= Sum(sizes)
    ensures WalkUp(pager, None, sizes).0 == Reversed(sorted)
  {
    WalkUpAll(pager, sorted, sizes);
  }

  lemma TiesAreSkipped(pager: Pager, rows: seq<Row>, filter: Filter)
    requires ServesErc(pager, rows, filter) && DistinctPks(rows)
    requires !StrictlyAscending(Ords(Matching(rows, filter)))
    ensures !WalksDownAreComplete(pager, rows, filter) && !WalksUpAreComplete(pager, rows, filter)
  {
    var sorted := Matching(rows, filter);
    assert Ascending(Ords(sorted)) by {
      SortSorts(Where(rows, filter));
    }
    var i := FirstTie(Ords(sorted));
    ErcPagesBelowKeys(pager, rows, filter);
    var down := EqualKeysAreSkipped(pager, sorted, i);
    ErcPagesAboveKeys(pager, rows, filter);
    var up := EqualKeysAreSkippedUp(pager, sorted, i);
  }

  lemma FirstTie(keys: seq<nat>) returns (i: nat)
    requires Ascending(keys) && !StrictlyAscending(keys)
    ensures i + 1 < |keys| && keys[i] == keys[i + 1]
  {
    var a, b :| 0 <= a < b < |keys| && keys[a] >= keys[b];
    assert keys[a] <= keys[a + 1] <= keys[b];
    i := a;
  }

  // ----------------------------------------------------- the cutting loaders

  /** The cutting loaders return the right page exactly when they are not asked, without a cursor,
      for fewer rows from the bottom than there are. */
  lemma CutPageRightExactlyWhen(sorted: seq<Row>, keys: seq<nat>, cursor: Option<nat>, count: int)
    requires count != 0 && |keys| == |sorted|
    requires forall i, j :: 0 <= i < j < |sorted| ==> sorted[i] != sorted[j]
    ensures CutPageOf(sorted, keys, cursor, count) == PageOf(sorted, keys, cursor, count) <==>
            !(cursor.None? && count < 0 && -count < |sorted|)
  {
    if cursor.None? && count < 0 && -count < |sorted| {
      assert CutPageOf(sorted, keys, cursor, count).rows[0] == sorted[-count];
      assert PageOf(sorted, keys, cursor, count).rows[0] == sorted[-count - 1];
    }
  }

  predicate Any(r: Row) {
    true
  }

  const OLDER := Row(1, 10, 0)
  const NEWER := Row(2, 20, 0)

  lemma TwoRows()
    ensures Sort([OLDER, NEWER]) == Matching([OLDER, NEWER], Any) == [OLDER, NEWER]
  {
    var rows := [OLDER, NEWER];
    assert rows[..1] == [OLDER] && [OLDER][..0] == [];
    assert Where([OLDER], Any) == [OLDER] && Where(rows, Any) == rows;
    assert Sort([OLDER]) == [OLDER];
    assert [OLDER][|[OLDER]| - 1].ord <= NEWER.ord && Insert([OLDER], NEWER) == [OLDER] + [NEWER] == rows;
    assert Sort(rows) == Insert(Sort(rows[..1]), rows[1]);
  }

  /** Asked for the lowest of two rows, both loaders return the other one. */
  lemma CutPageExample()
    ensures ErcPage([OLDER, NEWER], None, -1, Any) == Ok(Page([OLDER], false, true))
    ensures DelegationPage([OLDER, NEWER], None, -1, Any) == Ok(Page([NEWER], false, true))
    ensures EpochPage([OLDER, NEWER], None, -1) == Ok(Page([NEWER], false, true))
  {
    TwoRows();
    var sorted := [OLDER, NEWER];
    assert Reversed(sorted[0..1]) == [OLDER] && Reversed(sorted[1..2]) == [NEWER];
    FirstCutPageUp(sorted, Ords(sorted), 1);
    FirstCutPageUp(sorted, Pks(sorted), 1);
    ErcFirstPageUp(sorted, Any, 1);
    assert Up(1) == -1 && PageAbove(sorted, 0, 1) == Page([OLDER], false, true);
  }

  /** With the cursor of a matching row, or none, the delegation loader agrees with the token
      transaction loader in all but that one case. */
  lemma DelegationsAgreeExactlyWhen(rows: seq<Row>, filter: Filter, k: Option<nat>, count: int)
    requires count != 0 && DistinctPks(rows) && StrictlyAscending(Ords(Matching(rows, filter)))
    requires k.Some? ==> k.value < |Matching(rows, filter)|
    ensures var sorted := Matching(rows, filter);
            var (erc, dlg) := if k.None? then (None, None)
                              else (Some(sorted[k.value].pk), Some(Decoded(sorted[k.value].pk)));
            DelegationPage(rows, dlg, count, filter) == ErcPage(rows, erc, count, filter) <==>
            !(k.None? && count < 0 && -count < |sorted|)
  {
    var sorted := Matching(rows, filter);
    if k.Some? {
      MatchingRow(rows, filter, k.value);
    }
    CutPageRightExactlyWhen(sorted, Ords(sorted), if k.None? then None else Some(sorted[k.value].ord), count);
  }

  /** So are epochs, with any number as their cursor. */
  lemma EpochsRightExactlyWhen(rows: seq<Row>, cursor: Option<nat>, count: int)
    requires count != 0 && rows != [] && StrictlyAscending(Pks(Sort(rows)))
    ensures var sorted := Sort(rows);
            var decoded := if cursor.Some? then Some(Decoded(cursor.value)) else None;
            EpochPage(rows, decoded, count) == Ok(PageOf(sorted, Pks(sorted), cursor, count)) <==>
            !(cursor.None? && count < 0 && -count < |sorted|)
  {
    var sorted := Sort(rows);
    SortSorts(rows);
    forall i, j | 0 <= i < j < |sorted|
      ensures sorted[i] != sorted[j]
    {
      assert Pks(sorted)[i] < Pks(sorted)[j];
    }
    CutPageRightExactlyWhen(sorted, Pks(sorted), cursor, count);
  }

  /** Walking down visits every delegation once: the flaw of the loader is not on this way. */
  lemma DelegationWalkDownVisitsAll(pager: Pager, rows: seq<Row>, filter: Filter, sizes: seq<nat>)
    requires ServesDelegations(pager, rows, filter) && DistinctPks(rows) && Positive(sizes) && sizes != []
    requires StrictlyAscending(Ords(Matching(rows, filter)))
    ensures var newest := Reversed(Matching(rows, filter));
            WalkDown(pager, None, sizes) == (Take(newest, Sum(sizes)), |newest| <= Sum(sizes))
  {
    DelegationPagesDown(pager, rows, filter);
    WalkDownAll(pager, Matching(rows, filter), sizes);
  }

  lemma DelegationPagesDown(pager: Pager, rows: seq<Row>, filter: Filter)
    requires ServesDelegations(pager, rows, filter) && DistinctPks(rows)
    requires StrictlyAscending(Ords(Matching(rows, filter)))
    ensures PagesDown(pager, Matching(rows, filter))
  {
    var sorted := Matching(rows, filter);
    forall size: nat | 0 < size
      ensures pager(None, size) == Ok(PageBelow(sorted, |sorted|, size))
    {
      PageIsAdjacent(sorted, Ords(sorted), None, 0, size);
    }
    forall k: nat, size: nat | k < |sorted| && 0 < size
      ensures pager(Some(sorted[k].pk), size) == Ok(PageBelow(sorted, k, size))
    {
      DelegationPagesNextTo(rows, filter, k, size);
    }
  }

  lemma DelegationPagesNextTo(rows: seq<Row>, filter: Filter, k: nat, size: nat)
    requires DistinctPks(rows) && StrictlyAscending(Ords(Matching(rows, filter)))
    requires k < |Matching(rows, filter)| && 0 < size
    ensures var sorted := Matching(rows, filter);
            && DelegationPage(rows, Some(Decoded(sorted[k].pk)), size, filter) == Ok(PageBelow(sorted, k, size))
            && DelegationPage(rows, Some(Decoded(sorted[k].pk)), Up(size), filter) == Ok(PageAbove(sorted, k + 1, size))
  {
    MatchingRow(rows, filter, k);
    CutPagesNextTo(Matching(rows, filter), Ords(Matching(rows, filter)), k, size);
  }

  /** With a cursor nothing is cut wrongly. */
  lemma CutPagesNextTo(sorted: seq<Row>, keys: seq<nat>, k: nat, size: nat)
    requires |keys| == |sorted| && StrictlyAscending(keys) && k < |sorted| && 0 < size
    ensures CutPageOf(sorted, keys, Some(keys[k]), size) == PageBelow(sorted, k, size)
    ensures CutPageOf(sorted, keys, Some(keys[k]), Up(size)) == PageAbove(sorted, k + 1, size)
  {
    PageIsAdjacent(sorted, keys, Some(keys[k]), k, size);
    PageIsAdjacent(sorted, keys, Some(keys[k]), k, Up(size));
  }

  /** And every epoch. */
  lemma EpochWalkDownVisitsAll(pager: Pager, rows: seq<Row>, sizes: seq<nat>)
    requires ServesEpochs(pager, rows) && Positive(sizes) && sizes != [] && StrictlyAscending(Pks(Sort(rows)))
    ensures var newest := Reversed(Sort(rows));
            WalkDown(pager, None, sizes) == (Take(newest, Sum(sizes)), |newest| <= Sum(sizes))
  {
    EpochPagesDown(pager, rows);
    WalkDownAll(pager, Sort(rows), sizes);
  }

  lemma EpochPagesDown(pager: Pager, rows: seq<Row>)
    requires ServesEpochs(pager, rows) && StrictlyAscending(Pks(Sort(rows)))
    ensures PagesDown(pager, Sort(rows))
  {
    var sorted := Sort(rows);
    forall size: nat | 0 < size
      ensures pager(None, size) == Ok(PageBelow(sorted, |sorted|, size))
    {
      PageIsAdjacent(sorted, Pks(sorted), None, 0, size);
    }
    forall k: nat, size: nat | k < |sorted| && 0 < size
      ensures pager(Some(sorted[k].pk), size) == Ok(PageBelow(sorted, k, size))
    {
      EpochPagesNextTo(rows, k, size);
    }
  }

  lemma EpochPagesNextTo(rows: seq<Row>, k: nat, size: nat)
    requires StrictlyAscending(Pks(Sort(rows))) && k < |Sort(rows)| && 0 < size
    ensures EpochPage(rows, Some(Decoded(Sort(rows)[k].pk)), size) == Ok(PageBelow(Sort(rows), k, size))
    ensures EpochPage(rows, Some(Decoded(Sort(rows)[k].pk)), Up(size)) == Ok(PageAbove(Sort(rows), k + 1, size))
  {
    CutPagesNextTo(Sort(rows), Pks(Sort(rows)), k, size);
  }

  /** A cursor of no matching row: for token transactions it counts with its own key if it is a
      row at all, and else is an error; for delegations either is an empty last page downwards,
      and upwards the lowest rows with positive keys, that is the bottom of the list if its lowest
      key is positive. */
  lemma UnknownCursor(rows: seq<Row>, filter: Filter, pk: nat, count: int)
    requires count != 0 && Matching(rows, filter) != [] && FindByPk(Where(rows, filter), pk).None?
    ensures var sorted := Matching(rows, filter);
            ErcPage(rows, Some(pk), count, filter) ==
            match FindByPk(rows, pk)
            case None => Err
            case Some(r) => Ok(PageOf(sorted, Ords(sorted), Some(r.ord), count))
    ensures count > 0 ==> DelegationPage(rows, Some(Decoded(pk)), count, filter) == Ok(Page([], false, true))
    ensures count < 0 ==>
              var sorted := Matching(rows, filter);
              DelegationPage(rows, Some(Decoded(pk)), count, filter) ==
              Ok(PageAbove(sorted, CountBelow(Ords(sorted), 1), -count).(isEnd := false))
    ensures count < 0 && Matching(rows, filter)[0].ord > 0 ==>
              var sorted := Matching(rows, filter);
              DelegationPage(rows, Some(Decoded(pk)), count, filter) ==
              Ok(PageOf(sorted, Ords(sorted), None, count).(isEnd := false))
  {
    ZeroKeyPages(Matching(rows, filter), count);
  }

  /** A cursor that is no row at all: an error for one loader, an empty last page for the other. */
  lemma UnknownCursorExample()
    ensures ErcPage([OLDER, NEWER], Some(3), 1, Any) == Err
    ensures DelegationPage([OLDER, NEWER], Some(Decoded(3)), 1, Any) == Ok(Page([], false, true))
  {
    TwoRows();
    assert FindByPk([OLDER, NEWER], 3).None?;
    WhereKeeps([OLDER, NEWER], Any);
    UnknownCursor([OLDER, NEWER], Any, 3, 1);
  }

  lemma ZeroKeyPages(sorted: seq<Row>, count: int)
    requires count != 0 && sorted != []
    ensures count > 0 ==> CutPageOf(sorted, Ords(sorted), Some(0), count) == Page([], false, true)
    ensures count < 0 && sorted[0].ord > 0 ==>
              CutPageOf(sorted, Ords(sorted), Some(0), count) ==
              PageOf(sorted, Ords(sorted), None, count).(isEnd := false)
    ensures count < 0 ==>
              CutPageOf(sorted, Ords(sorted), Some(0), count) ==
              PageAbove(sorted, CountBelow(Ords(sorted), 1), -count).(isEnd := false)
  {
    assert CountBelow(Ords(sorted), 0) == 0;
  }

  /** A request fails exactly if it asks for nothing, or, for a list that is not empty, if its cursor
      is that of no row at all, or does not decode. */
  lemma RequestsFailExactlyWhen(rows: seq<Row>, filter: Filter, pk: Option<nat>, cursor: Option<Cursor>, count: int)
    ensures ErcPage(rows, pk, count, filter).Err? <==>
              count == 0 || (Matching(rows, filter) != [] && pk.Some? && forall r :: r in rows ==> r.pk != pk.value)
    ensures DelegationPage(rows, cursor, count, filter).Err? <==>
              count == 0 || (Matching(rows, filter) != [] && cursor == Some(Malformed))
    ensures EpochPage(rows, cursor, count).Err? <==> count == 0 || (rows != [] && cursor == Some(Malformed))
  {
    SortSorts(rows);
  }

  /** An empty list is its own first and last page. */
  lemma EmptyLists(rows: seq<Row>, filter: Filter, pk: Option<nat>, cursor: Option<Cursor>, count: int)
    requires count != 0
    ensures Matching(rows, filter) == [] ==>
              ErcPage(rows, pk, count, filter) == DelegationPage(rows, cursor, count, filter)
              == Ok(Page([], true, true))
    ensures rows == [] ==> EpochPage(rows, cursor, count) == Ok(Page([], true, true))
  {
  }

  // ------------------------------------------- walking up the cut lists

  /** The pages up of a cutting loader: as they should be from a cursor, and without the lowest
      row at the bottom of a list that is longer than the page. */
  ghost predicate CutPagesUp(pager: Pager, sorted: seq<Row>) {
    && PagesUpFrom(pager, sorted)
    && (forall size: nat {:trigger pager(None, Up(size))} :: 0 < size ==>
          pager(None, Up(size)) ==
          Ok(if size < |sorted| then Page(Reversed(sorted[1..1 + size]), false, true) else PageAbove(sorted, 0, size)))
  }

  lemma DelegationPagesUp(pager: Pager, rows: seq<Row>, filter: Filter)
    requires ServesDelegations(pager, rows, filter) && DistinctPks(rows)
    requires StrictlyAscending(Ords(Matching(rows, filter)))
    ensures CutPagesUp(pager, Matching(rows, filter))
  {
    var sorted := Matching(rows, filter);
    forall k: nat, size: nat | k < |sorted| && 0 < size
      ensures pager(Some(sorted[k].pk), Up(size)) == Ok(PageAbove(sorted, k + 1, size))
    {
      DelegationPagesNextTo(rows, filter, k, size);
    }
    forall size: nat | 0 < size
      ensures pager(None, Up(size)) ==
              Ok(if size < |sorted| then Page(Reversed(sorted[1..1 + size]), false, true)
                 else PageAbove(sorted, 0, size))
    {
      FirstCutPageUp(sorted, Ords(sorted), size);
    }
  }

  lemma FirstCutPageUp(sorted: seq<Row>, keys: seq<nat>, size: nat)
    requires 0 < size && |keys| == |sorted|
    ensures CutPageOf(sorted, keys, None, Up(size)) ==
            if size < |sorted| then Page(Reversed(sorted[1..1 + size]), false, true) else PageAbove(sorted, 0, size)
  {
  }

  lemma EpochPagesUp(pager: Pager, rows: seq<Row>)
    requires ServesEpochs(pager, rows) && StrictlyAscending(Pks(Sort(rows)))
    ensures CutPagesUp(pager, Sort(rows))
  {
    var sorted := Sort(rows);
    forall k: nat, size: nat | k < |sorted| && 0 < size
      ensures pager(Some(sorted[k].pk), Up(size)) == Ok(PageAbove(sorted, k + 1, size))
    {
      EpochPagesNextTo(rows, k, size);
    }
    forall size: nat | 0 < size
      ensures pager(None, Up(size)) ==
              Ok(if size < |sorted| then Page(Reversed(sorted[1..1 + size]), false, true)
                 else PageAbove(sorted, 0, size))
    {
      FirstCutPageUp(sorted, Pks(sorted), size);
    }
  }

  /** A walk up that starts with less than the whole list visits every row but the lowest. */
  lemma CutWalkUp(pager: Pager, sorted: seq<Row>, sizes: seq<nat>)
    requires CutPagesUp(pager, sorted) && Positive(sizes) && sizes != []
    ensures WalkUp(pager, None, sizes).0 ==
            if |sorted| <= sizes[0] then Reversed(sorted) else Reversed(sorted[1..Min(|sorted|, 1 + Sum(sizes))])
  {
    if |sorted| <= sizes[0] {
      assert pager(None, Up(sizes[0])) == Ok(PageAbove(sorted, 0, sizes[0]));
      WalkUpContinues(pager, None, sizes, PageAbove(sorted, 0, sizes[0]));
      assert sorted[0..|sorted|] == sorted;
    } else {
      WalkUpAfter(pager, sorted, None, 1, 1 + sizes[0], sizes, true);
    }
  }

  /** So it is complete exactly when its first page holds the whole list. */
  lemma CutWalkUpCompleteExactlyWhen(pager: Pager, sorted: seq<Row>, sizes: seq<nat>)
    requires CutPagesUp(pager, sorted) && Positive(sizes) && sizes != []
    ensures WalkUp(pager, None, sizes).0 == Reversed(sorted) <==> |sorted| <= sizes[0]
  {
    CutWalkUp(pager, sorted, sizes);
    if sizes[0] < |sorted| {
      assert |Reversed(sorted[1..Min(|sorted|, 1 + Sum(sizes))])| < |Reversed(sorted)|;
    }
  }

  lemma DelegationWalkUpCompleteExactlyWhen(pager: Pager, rows: seq<Row>, filter: Filter, sizes: seq<nat>)
    requires ServesDelegations(pager, rows, filter) && DistinctPks(rows) && Positive(sizes) && sizes != []
    requires StrictlyAscending(Ords(Matching(rows, filter)))
    ensures var sorted := Matching(rows, filter);
            && (WalkUp(pager, None, sizes).0 == Reversed(sorted) <==> |sorted| <= sizes[0])
            && (sizes[0] < |sorted| ==>
                  WalkUp(pager, None, sizes).0 == Reversed(sorted[1..Min(|sorted|, 1 + Sum(sizes))]))
  {
    DelegationPagesUp(pager, rows, filter);
    CutWalkUp(pager, Matching(rows, filter), sizes);
    CutWalkUpCompleteExactlyWhen(pager, Matching(rows, filter), sizes);
  }

  lemma EpochWalkUpCompleteExactlyWhen(pager: Pager, rows: seq<Row>, sizes: seq<nat>)
    requires ServesEpochs(pager, rows) && Positive(sizes) && sizes != [] && StrictlyAscending(Pks(Sort(rows)))
    ensures var sorted := Sort(rows);
            && (WalkUp(pager, None, sizes).0 == Reversed(sorted) <==> |sorted| <= sizes[0])
            && (sizes[0] < |sorted| ==>
                  WalkUp(pager, None, sizes).0 == Reversed(sorted[1..Min(|sorted|, 1 + Sum(sizes))]))
  {
    EpochPagesUp(pager, rows);
    CutWalkUp(pager, Sort(rows), sizes);
    CutWalkUpCompleteExactlyWhen(pager, Sort(rows), sizes);
  }
}
