/** The list loaders as they run, proved to return the pages of Paging. */
module ListLoaders {
  import opened Wrappers
  import opened Sequences
  import opened ListQuery
  import opened Paging

  class PageList {
    var collection: seq<Row>
    var total: nat
    var first: nat
    var last: nat
    var isStart: bool
    var isEnd: bool

    function ToPage(): Page
      reads this
    {
      Page(collection, isStart, isEnd)
    }

    constructor (total: nat)
      ensures collection == [] && this.total == total && first == last == 0
      ensures isStart == isEnd == (total == 0)
    {
      collection, this.total, first, last := [], total, 0, 0;
      isStart, isEnd := total == 0, total == 0;
    }

    /** Reverses the rows, and exchanges the range marks with them. */
    method Reverse()
      modifies this`collection, this`first, this`last
      ensures collection == Reversed(old(collection))
      ensures (first, last) == if |collection| < 2 then (old(first), old(last)) else (old(last), old(first))
    {
      if |collection| < 2 {
        return;
      }
      SwapRows();
      first, last := last, first;
    }

    /** Swaps the elements from both ends towards the middle. */
    method SwapRows()
      modifies this`collection
      ensures collection == Reversed(old(collection))
    {
      ghost var was := collection;
      var i, j := 0, |collection| - 1;
      while i < j
        invariant |collection| == |was| && 0 <= i <= j + 1 && i + j == |was| - 1
        invariant forall k :: i <= k <= j ==> collection[k] == was[k]
        invariant forall k :: 0 <= k < i ==> collection[k] == was[|was| - 1 - k]
        invariant forall k :: j < k < |was| ==> collection[k] == was[|was| - 1 - k]
        decreases j - i
      {
        collection := collection[i := collection[j]][j := collection[i]];
        i, j := i + 1, j - 1;
      }
    }

    /** Appends all rows found but the last one, which is returned. */
    method AppendAllButLast(found: seq<Row>) returns (pending: Option<Row>)
      requires collection == []
      modifies this`collection
      ensures pending == if found == [] then None else Some(found[|found| - 1])
      ensures collection == if found == [] then [] else found[..|found| - 1]
    {
      pending := None;
      for i := 0 to |found|
        invariant pending == if i == 0 then None else Some(found[i - 1])
        invariant collection == if i == 0 then [] else found[..i - 1]
      {
        if pending.Some? {
          collection := collection + [pending.value];
        }
        pending := Some(found[i]);
      }
    }

    method SetBoundaries(hasCursor: bool, count: int)
      modifies this`isStart, this`isEnd
      ensures isEnd == ((!hasCursor && count < 0) || (count > 0 && |collection| < count))
      ensures isStart == ((!hasCursor && count > 0) || (count < 0 && |collection| < -count))
    {
      isEnd := (!hasCursor && count < 0) || (count > 0 && |collection| < count);
      isStart := (!hasCursor && count > 0) || (count < 0 && |collection| < -count);
    }

    /** Fills the list; the last row found belongs to it only on the boundary it ran into. */
    method Fill(found: seq<Row>, hasCursor: bool, count: int)
      requires count != 0 && collection == [] && |found| <= Limit(count) + 1
      modifies this`collection, this`isStart, this`isEnd
      ensures collection == Take(found, Limit(count))
      ensures isEnd == if count > 0 then |found| <= Limit(count) else !hasCursor
      ensures isStart == if count > 0 then !hasCursor else |found| <= Limit(count)
    {
      var pending := AppendAllButLast(found);
      SetBoundaries(hasCursor, count);
      if ((count < 0 && isStart) || (count > 0 && isEnd)) && pending.Some? {
        collection := collection + [pending.value];
      }
    }

    /** Fills the list; the last row found is taken whenever the list is on any boundary. */
    method FillAndLookAhead(found: seq<Row>, hasCursor: bool, count: int)
      requires count != 0 && collection == [] && |found| <= Limit(count) + 1
      modifies this`collection, this`isStart, this`isEnd
      ensures collection == if hasCursor then Take(found, Limit(count)) else found
      ensures isEnd == if count > 0 then |found| <= Limit(count) else !hasCursor
      ensures isStart == if count > 0 then !hasCursor else |found| <= Limit(count)
    {
      var pending := AppendAllButLast(found);
      SetBoundaries(hasCursor, count);
      if (isStart || isEnd) && pending.Some? {
        collection := collection + [pending.value];
      }
    }

    /** Cuts the last row off a list longer than it should be. */
    method CutEnd(length: nat)
      modifies this`collection
      ensures collection ==
              if |old(collection)| > length then old(collection)[..|old(collection)| - 1] else old(collection)
    {
      if |collection| > length {
        collection := collection[..|collection| - 1];
      }
    }
  }

  class MongoDbBridge {
    var ercTransactions: seq<Row>
    var delegations: seq<Row>
    var epochs: seq<Row>

    /** Loads the page, appending the last row found on the boundary the load ran into. */
    method ErcTrxListLoad(list: PageList, hasCursor: bool, count: int, filter: Filter)
      requires count != 0 && list.collection == []
      modifies list`collection, list`isStart, list`isEnd
      ensures var found := Found(ercTransactions, filter, hasCursor, list.first, count);
              && list.collection == Take(found, Limit(count))
              && list.isEnd == (if count > 0 then |found| <= Limit(count) else !hasCursor)
              && list.isStart == (if count > 0 then !hasCursor else |found| <= Limit(count))
    {
      var found := Found(ercTransactions, filter, hasCursor, list.first, count);
      list.Fill(found, hasCursor, count);
    }

    /** Loads the rows, and puts the newer ones on top. */
    method ErcTrxListFill(list: PageList, hasCursor: bool, count: int, filter: Filter)
      requires count != 0 && list.collection == [] && Matching(ercTransactions, filter) != []
      requires !hasCursor ==> list.first == Border(Ords(Matching(ercTransactions, filter)), count)
      modifies list`collection, list`isStart, list`isEnd, list`first, list`last
      ensures var sorted := Matching(ercTransactions, filter);
              list.ToPage() == PageOf(sorted, Ords(sorted), if hasCursor then Some(old(list.first)) else None, count)
    {
      LoadedIsPage(ercTransactions, filter, if hasCursor then Some(list.first) else None, list.first, count);
      ErcTrxListLoad(list, hasCursor, count, filter);
      if count < 0 {
        list.Reverse();
      }
    }

    /** The key a list starts from: of a border row, or of the cursor's. */
    method ErcTrxListFirst(cursor: Option<nat>, count: int, filter: Filter) returns (first: Result<nat>)
      requires count != 0 && Matching(ercTransactions, filter) != []
      ensures cursor.None? ==> first == Ok(Border(Ords(Matching(ercTransactions, filter)), count))
      ensures cursor.Some? ==>
                first == match FindByPk(ercTransactions, cursor.value) case None => Err case Some(r) => Ok(r.ord)
    {
      if cursor.None? {
        var border := FindOne(ercTransactions, filter, count < 0);
        return Ok(border.value.ord);
      }
      match FindByPk(ercTransactions, cursor.value) {
        case None => return Err;
        case Some(r) => return Ok(r.ord);
      }
    }

    /** A list with its total and the key it starts from. */
    method ErcTrxListInit(cursor: Option<nat>, count: int, filter: Filter) returns (r: Result<PageList>)
      requires count != 0
      ensures var sorted := Matching(ercTransactions, filter);
              && (r.Err? <==> sorted != [] && cursor.Some? && FindByPk(ercTransactions, cursor.value).None?)
              && (r.Ok? ==> fresh(r.value) && r.value.collection == [] && r.value.total == |sorted|)
              && (r.Ok? && sorted == [] ==> r.value.isStart && r.value.isEnd)
              && (r.Ok? && sorted != [] && cursor.None? ==> r.value.first == Border(Ords(sorted), count))
              && (r.Ok? && sorted != [] && cursor.Some? ==>
                    r.value.first == FindByPk(ercTransactions, cursor.value).value.ord)
    {
      SortSorts(Where(ercTransactions, filter));
      var list := new PageList(|Where(ercTransactions, filter)|);
      if list.total == 0 {
        return Ok(list);
      }
      var first := ErcTrxListFirst(cursor, count, filter);
      if first.Err? {
        return Err;
      }
      list.first := first.value;
      return Ok(list);
    }

    method Erc20Transactions(cursor: Option<nat>, count: int, filter: Filter) returns (r: Result<PageList>)
      ensures match ErcPage(ercTransactions, cursor, count, filter)
              case Err => r.Err?
              case Ok(page) => r.Ok? && fresh(r.value) && r.value.ToPage() == page
      ensures r.Ok? ==> r.value.total == |Matching(ercTransactions, filter)|
    {
      if count == 0 {
        return Err;
      }
      r := ErcTrxListInit(cursor, count, filter);
      if r.Ok? && r.value.total > 0 {
        ErcTrxListFill(r.value, cursor.Some?, count, filter);
      }
    }

    // -------------------------------------------------------- delegations

    /** Loads the rows with the look-ahead, puts the newer ones on top, cuts the end. */
    method DlgListFill(list: PageList, hasCursor: bool, count: int, filter: Filter)
      requires count != 0 && list.collection == [] && Matching(delegations, filter) != []
      requires !hasCursor ==> list.first == Border(Ords(Matching(delegations, filter)), count)
      modifies list`collection, list`isStart, list`isEnd, list`first, list`last
      ensures var sorted := Matching(delegations, filter);
              list.ToPage() == CutPageOf(sorted, Ords(sorted), if hasCursor then Some(old(list.first)) else None, count)
    {
      ghost var cursor := if hasCursor then Some(list.first) else None;
      ghost var sorted := Matching(delegations, filter);
      FoundIsReach(delegations, filter, cursor, list.first, count);
      var found := Found(delegations, filter, hasCursor, list.first, count);
      CutIsPage(sorted, Ords(sorted), cursor, count);
      FillAndCut(list, found, hasCursor, count);
    }

    /** The key a list of delegations starts from; only a cursor that does not decode fails. */
    method DlgListFirst(cursor: Option<Cursor>, count: int, filter: Filter) returns (first: Result<nat>)
      requires count != 0 && Matching(delegations, filter) != []
      ensures match cursor
              case None => first == Ok(Border(Ords(Matching(delegations, filter)), count))
              case Some(Malformed) => first == Err
              case Some(Decoded(pk)) =>
                var found := FindByPk(Where(delegations, filter), pk);
                first == Ok(if found.Some? then found.value.ord else 0)
    {
      match cursor {
        case None =>
          var border := FindOne(delegations, filter, count < 0);
          return Ok(border.value.ord);
        case Some(Malformed) =>
          return Err;
        case Some(Decoded(pk)) =>
          var found := FindByPk(Where(delegations, filter), pk);
          return Ok(if found.Some? then found.value.ord else 0);
      }
    }

    method Delegations(cursor: Option<Cursor>, count: int, filter: Filter) returns (r: Result<PageList>)
      ensures match DelegationPage(delegations, cursor, count, filter)
              case Err => r.Err?
              case Ok(page) => r.Ok? && fresh(r.value) && r.value.ToPage() == page
      ensures r.Ok? ==> r.value.total == |Matching(delegations, filter)|
    {
      if count == 0 {
        return Err;
      }
      SortSorts(Where(delegations, filter));
      var list := new PageList(|Where(delegations, filter)|);
      if list.total == 0 {
        return Ok(list);
      }
      var first := DlgListFirst(cursor, count, filter);
      if first.Err? {
        return Err;
      }
      list.first := first.value;
      DlgListFill(list, cursor.Some?, count, filter);
      return Ok(list);
    }

    // ------------------------------------------------------------- epochs

    method EpochListFill(list: PageList, hasCursor: bool, count: int)
      requires count != 0 && list.collection == []
      modifies list`collection, list`isStart, list`isEnd, list`first, list`last
      ensures list.ToPage() ==
              CutList(FoundEpochs(epochs, hasCursor, old(list.first), count), hasCursor, count)
    {
      var found := FoundEpochs(epochs, hasCursor, list.first, count);
      FillAndCut(list, found, hasCursor, count);
    }

    /** The number a list of epochs starts from: of a border epoch, or the cursor itself. */
    method EpochListFirst(cursor: Option<Cursor>, count: int) returns (first: Result<nat>)
      requires count != 0 && Sort(epochs) != []
      ensures match cursor
              case None => first == Ok(Border(Pks(Sort(epochs)), count))
              case Some(Malformed) => first == Err
              case Some(Decoded(id)) => first == Ok(id)
    {
      match cursor {
        case None =>
          AllMatch(epochs);
          var border := FindOne(epochs, Everything, count < 0);
          return Ok(border.value.pk);
        case Some(Malformed) =>
          return Err;
        case Some(Decoded(id)) =>
          return Ok(id);
      }
    }

    /** The query filters by number and sorts by end: the page is as it should be when epochs
        end in the order of their numbers. */
    method Epochs(cursor: Option<Cursor>, count: int) returns (r: Result<PageList>)
      ensures match ListedEpochs(epochs, cursor, count)
              case Err => r.Err?
              case Ok(page) => r.Ok? && fresh(r.value) && r.value.ToPage() == page
      ensures EndsFollowIds(epochs) ==>
              match EpochPage(epochs, cursor, count)
              case Err => r.Err?
              case Ok(page) => r.Ok? && r.value.ToPage() == page
      ensures r.Ok? ==> r.value.total == |epochs|
    {
      ListedIsEpochPage(epochs, cursor, count);
      if count == 0 {
        return Err;
      }
      SortSorts(epochs);
      var list := new PageList(|epochs|);
      if list.total == 0 {
        return Ok(list);
      }
      var first := EpochListFirst(cursor, count);
      if first.Err? {
        return Err;
      }
      list.first := first.value;
      EpochListFill(list, cursor.Some?, count);
      return Ok(list);
    }
  }

  /** What the append-then-cut loaders make of the rows found: all of them on a boundary, the
      newer ones on top, and the last one cut off if there are too many. */
  function CutRows(found: seq<Row>, hasCursor: bool, count: int): seq<Row> {
    var filled := if hasCursor then Take(found, Limit(count)) else found;
    var oriented := if count < 0 then Reversed(filled) else filled;
    if |oriented| > Limit(count) then oriented[..|oriented| - 1] else oriented
  }

  function CutList(found: seq<Row>, hasCursor: bool, count: int): Page {
    Page(CutRows(found, hasCursor, count),
         if count > 0 then !hasCursor else |found| <= Limit(count),
         if count > 0 then |found| <= Limit(count) else !hasCursor)
  }

  /** The end of both append-then-cut loaders. */
  method FillAndCut(list: PageList, found: seq<Row>, hasCursor: bool, count: int)
    requires count != 0 && list.collection == [] && |found| <= Limit(count) + 1
    modifies list`collection, list`isStart, list`isEnd, list`first, list`last
    ensures list.ToPage() == CutList(found, hasCursor, count)
  {
    list.FillAndLookAhead(found, hasCursor, count);
    if count < 0 {
      list.Reverse();
    }
    list.CutEnd(Limit(count));
  }

  /** What the query of a load finds. */
  function Found(rows: seq<Row>, filter: Filter, hasCursor: bool, first: nat, count: int): seq<Row>
    requires count != 0
  {
    Find(rows, OnOrdinal(filter, RangeOf(hasCursor, first, count)), count < 0, Limit(count) + 1)
  }

  function Limit(count: int): nat {
    if count < 0 then -count else count
  }

  lemma FoundIsReach(rows: seq<Row>, filter: Filter, cursor: Option<nat>, first: nat, count: int)
    requires count != 0 && Matching(rows, filter) != []
    requires first == if cursor.Some? then cursor.value else Border(Ords(Matching(rows, filter)), count)
    ensures var sorted := Matching(rows, filter);
            Found(rows, filter, cursor.Some?, first, count) == InReach(sorted, Ords(sorted), cursor, count)
  {
    var range := RangeOf(cursor.Some?, first, count);
    SortSorts(Where(rows, filter));
    QueryFindsReach(rows, filter, Ords(Matching(rows, filter)), cursor, first, count,
                    (r: Row) => InRange(range, r.ord), OnOrdinal(filter, range));
  }

  /** What a load finds, oriented with the newest row on top, is the page. */
  lemma LoadedIsPage(rows: seq<Row>, filter: Filter, cursor: Option<nat>, first: nat, count: int)
    requires count != 0 && Matching(rows, filter) != []
    requires first == if cursor.Some? then cursor.value else Border(Ords(Matching(rows, filter)), count)
    ensures var found := Found(rows, filter, cursor.Some?, first, count);
            var sorted := Matching(rows, filter);
            var page := PageOf(sorted, Ords(sorted), cursor, count);
            && page.rows == (if count < 0 then Reversed(Take(found, Limit(count))) else Take(found, Limit(count)))
            && page.isEnd == (if count > 0 then |found| <= Limit(count) else cursor.None?)
            && page.isStart == (if count > 0 then cursor.None? else |found| <= Limit(count))
  {
    var sorted := Matching(rows, filter);
    FoundIsReach(rows, filter, cursor, first, count);
    FetchedIsWindow(sorted, Ords(sorted), cursor, count, Limit(count));
  }

  /** The rows in reach, nearest first, with one row of look-ahead. */
  function InReach(sorted: seq<Row>, keys: seq<nat>, cursor: Option<nat>, count: int): seq<Row>
    requires |keys| == |sorted|
  {
    var (a, b) := Reach(keys, cursor, count);
    Take(if count < 0 then sorted[a..b] else Reversed(sorted[a..b]), Limit(count) + 1)
  }

  /** The page with one row lost in one case is what these loaders return. */
  lemma CutIsPage(sorted: seq<Row>, keys: seq<nat>, cursor: Option<nat>, count: int)
    requires count != 0 && |keys| == |sorted|
    ensures CutList(InReach(sorted, keys, cursor, count), cursor.Some?, count) ==
            CutPageOf(sorted, keys, cursor, count)
  {
    FetchedIsWindow(sorted, keys, cursor, count, Limit(count));
    if cursor.None? && count < 0 && -count < |sorted| {
      var found := InReach(sorted, keys, cursor, count);
      assert found == sorted[..1 - count];
      assert Reversed(found)[..|found| - 1] == Reversed(sorted[1..1 - count]);
    }
  }

  predicate Everything(r: Row) {
    true
  }

  lemma AllMatch(rows: seq<Row>)
    ensures Where(rows, Everything) == rows
  {
    WhereIsSlice(rows, Everything, 0, |rows|);
  }

  function FoundEpochs(rows: seq<Row>, hasCursor: bool, first: nat, count: int): seq<Row>
    requires count != 0
  {
    Find(rows, OnPk(RangeOf(hasCursor, first, count)), count < 0, Limit(count) + 1)
  }

  lemma AscendingIds(rows: seq<Row>)
    requires EndsFollowIds(rows)
    ensures Paging.Ascending(Pks(Sort(rows)))
  {
    var sorted := Sort(rows);
    SortSorts(rows);
    forall i, j | 0 <= i <= j < |sorted|
      ensures sorted[i].pk <= sorted[j].pk
    {
      assert sorted[i] in rows && sorted[j] in rows;
    }
  }

  lemma FoundEpochsAreReach(rows: seq<Row>, cursor: Option<nat>, first: nat, count: int)
    requires count != 0 && Sort(rows) != [] && EndsFollowIds(rows)
    requires first == if cursor.Some? then cursor.value else Border(Pks(Sort(rows)), count)
    ensures FoundEpochs(rows, cursor.Some?, first, count) == InReach(Sort(rows), Pks(Sort(rows)), cursor, count)
  {
    var q, sorted := OnPk(RangeOf(cursor.Some?, first, count)), Sort(rows);
    var (a, b) := Reach(Pks(sorted), cursor, count);
    AscendingIds(rows);
    SortWhere(rows, q);
    forall i | 0 <= i < |sorted|
      ensures q(sorted[i]) <==> a <= i < b
    {
      RangeReaches(Pks(sorted), cursor, first, count, i);
    }
    WhereIsSlice(sorted, q, a, b);
  }

  /** What a request for epochs returns, whatever the order of their ends. */
  function ListedEpochs(rows: seq<Row>, cursor: Option<Cursor>, count: int): Result<Page> {
    var sorted := Sort(rows);
    if count == 0 then Err
    else if sorted == [] then Ok(Page([], true, true))
    else
      match cursor
      case None => Ok(CutList(FoundEpochs(rows, false, Border(Pks(sorted), count), count), false, count))
      case Some(Malformed) => Err
      case Some(Decoded(id)) => Ok(CutList(FoundEpochs(rows, true, id, count), true, count))
  }

  lemma ListedIsEpochPage(rows: seq<Row>, cursor: Option<Cursor>, count: int)
    ensures EndsFollowIds(rows) ==> ListedEpochs(rows, cursor, count) == EpochPage(rows, cursor, count)
  {
    var sorted := Sort(rows);
    if EndsFollowIds(rows) && count != 0 && sorted != [] && cursor != Some(Malformed) {
      var key := if cursor.Some? then Some(cursor.value.id) else None;
      var first := if key.Some? then key.value else Border(Pks(sorted), count);
      FoundEpochsAreReach(rows, key, first, count);
      CutIsPage(sorted, Pks(sorted), key, count);
    }
  }

  /** The number of the epoch that ended last. */
  function LastEnded(rows: seq<Row>): (id: nat)
    requires rows != [] && |Sort(rows)| == |rows|
  {
    Sort(rows)[|rows| - 1].pk
  }

  lemma ListedFromTop(rows: seq<Row>, count: int)
    requires rows != [] && |Sort(rows)| == |rows| && count >= |rows|
    ensures var found := Sort(Where(rows, OnPk(AtMost(LastEnded(rows)))));
            ListedEpochs(rows, None, count).Ok? && ListedEpochs(rows, None, count).value.rows == Reversed(found)
  {
    WhereKeeps(rows, OnPk(AtMost(LastEnded(rows))));
    SortSorts(Where(rows, OnPk(AtMost(LastEnded(rows)))));
  }

  /** Asked for all epochs from the last one down, the list has them all exactly when no epoch
      has a larger number than the one that ended last. */
  lemma AllEpochsListedExactlyWhen(rows: seq<Row>, count: int)
    requires rows != [] && count >= |rows|
    ensures |Sort(rows)| == |rows| && ListedEpochs(rows, None, count).Ok?
    ensures ListedEpochs(rows, None, count).value.rows == Reversed(Sort(rows)) <==>
            forall r :: r in rows ==> r.pk <= LastEnded(rows)
  {
    SortSorts(rows);
    ListedFromTop(rows, count);
    NothingFiltered(rows, OnPk(AtMost(LastEnded(rows))));
  }

  /** An epoch with a larger number than the one that ended last is missing from the list. */
  lemma EpochMissingExample()
    ensures var rows := [Row(2, 10, 0), Row(1, 20, 0)];
            ListedEpochs(rows, None, 2).Ok? && ListedEpochs(rows, None, 2).value.rows != Reversed(Sort(rows))
  {
    var early, late := Row(2, 10, 0), Row(1, 20, 0);
    var rows := [early, late];
    assert rows[..1] == [early] && [early][..0] == [];
    assert Sort([early]) == [early];
    assert Sort(rows) == Insert([early], late) == [early, late];
    AllEpochsListedExactlyWhen(rows, 2);
    assert early in rows && early.pk > LastEnded(rows);
  }

  /** A filter changes the sorted list unless it lets every row pass. */
  lemma NothingFiltered(rows: seq<Row>, q: Filter)
    ensures Reversed(Sort(Where(rows, q))) == Reversed(Sort(rows)) <==> forall r :: r in rows ==> q(r)
  {
    if forall r :: r in rows ==> q(r) {
      assert forall i :: 0 <= i < |rows| ==> q(rows[i]);
      WhereIsSlice(rows, q, 0, |rows|);
      assert rows[0..|rows|] == rows;
    } else {
      var r :| r in rows && !q(r);
      assert r in Sort(rows) by { SortSorts(rows); }
      assert r !in Sort(Where(rows, q)) by {
        WhereKeeps(rows, q);
        SortSorts(Where(rows, q));
      }
      ReversedKeeps(Sort(rows), r);
      ReversedKeeps(Sort(Where(rows, q)), r);
    }
  }

  lemma ReversedKeeps(s: seq<Row>, r: Row)
    ensures r in Reversed(s) <==> r in s
  {
    if r in s {
      var i :| 0 <= i < |s| && s[i] == r;
      assert Reversed(s)[|s| - 1 - i] == r;
    }
  }
}
