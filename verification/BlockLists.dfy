/** Lists of blocks, walked block by block from a number, from the top or from the bottom. */
module BlockLists {
  import opened Wrappers
  import opened Sequences

  const UINT64_RANGE: nat := 0x1_0000_0000_0000_0000

  datatype Page = Page(blocks: seq<nat>, isStart: bool, isEnd: bool)

  /** The numbers from `hi - 1` down to `lo`. */
  function Descending(lo: nat, hi: nat): (s: seq<nat>)
    requires lo <= hi
    ensures |s| == hi - lo && forall i :: 0 <= i < |s| ==> s[i] == hi - 1 - i
  {
    seq(hi - lo, i requires 0 <= i < hi - lo => hi - 1 - i)
  }

  /** The list asked for: the |count| blocks next to the given number, or to the end of the chain
      the count starts from, newest first, with a flag on each side where the chain ends. */
  function PageOf(num: Option<nat>, count: int, height: nat): Result<Page> {
    if count == 0 || (num.Some? && height < num.value) then Err
    else if count > 0 then
      var hi := if num.Some? then num.value else height + 1;
      var lo := Max(0, hi - count);
      Ok(Page(Descending(lo, hi), num.None?, lo == 0))
    else
      var lo := if num.Some? then num.value + 1 else 0;
      var hi := Min(height + 1, lo - count);
      Ok(Page(Descending(lo, hi), hi == height + 1, num.None?))
  }

  class BlockList {
    var collection: seq<nat>
    var isStart: bool
    var isEnd: bool

    function ToPage(): Page
      reads this
    {
      Page(collection, isStart, isEnd)
    }

    constructor (isStart: bool, isEnd: bool)
      ensures collection == [] && this.isStart == isStart && this.isEnd == isEnd
    {
      collection, this.isStart, this.isEnd := [], isStart, isEnd;
    }

    method Reverse()
      modifies this`collection
      ensures collection == Reversed(old(collection))
    {
      ghost var was := collection;
      var i, j := 0, |collection| - 1;
      while i < j
        invariant |collection| == |was| && 0 <= i <= j + 1 && i + j == |was| - 1
        invariant forall k :: i <= k <= j ==> collection[k] == was[k]
        invariant forall k :: 0 <= k < i ==> collection[k] == was[|was| - 1 - k]
        invariant forall k :: j < k < |was| ==> collection[k] == was[|was| - 1 - k]
        decreases j - i
      {
        collection := collection[i := collection[j]][j := collection[i]];
        i, j := i + 1, j - 1;
      }
    }
  }

  /** The block `j` steps from the first one, in the direction of the count. */
  function Ahead(first: nat, count: int, j: int): int {
    if count > 0 then first - j else first + j
  }

  /** The blocks listed after so many steps: all that were passed, but for the cursor itself. */
  function Listed(first: nat, count: int, hasNum: bool, steps: nat): (s: seq<int>)
    ensures var skip := if hasNum then 1 else 0;
            && |s| == Max(0, steps - skip)
            && forall k :: 0 <= k < |s| ==> s[k] == Ahead(first, count, k + skip)
  {
    var skip := if hasNum then 1 else 0;
    seq(Max(0, steps - skip), k requires 0 <= k => Ahead(first, count, k + skip))
  }

  // --------------------------------------------------------- what is pulled

  /** The block a list starts from. */
  function FirstOf(num: Option<nat>, count: int, height: nat): nat {
    if num.Some? then num.value else if count < 0 then 0 else height
  }

  /** How many blocks are asked for, one more with a cursor. */
  function ToPull(num: Option<nat>, count: int): nat {
    (if count < 0 then -count else count) + (if num.Some? then 1 else 0)
  }

  /** How many blocks follow the first one before the chain ends, or before a read fails. */
  function Room(first: nat, count: int, height: nat, fail: Option<nat>): nat
    requires first <= height
  {
    var room := if count > 0 then first else height - first;
    if fail.Some? && fail.value < room then fail.value else room
  }

  /** The list of a walk of which one read fails, the `fail`-th after the first block, if any:
      the blocks passed until then, oriented with the newest on top. */
  function PulledPage(num: Option<nat>, count: int, height: nat, fail: Option<nat>): Result<Page> {
    if count == 0 || (num.Some? && height < num.value) then Err
    else
      var first := FirstOf(num, count, height);
      var room, toPull := Room(first, count, height, fail), ToPull(num, count);
      var n := Max(0, Min(toPull, room + 1) - (if num.Some? then 1 else 0));
      var from := if num.Some? then 1 else 0;
      if count > 0 then
        Ok(Page(Descending(first + 1 - from - n, first + 1 - from), num.None?, room < toPull))
      else
        Ok(Page(Descending(first + from, first + from + n), room < toPull, num.None?))
  }

  /** While no read fails, this is the list asked for. */
  lemma PulledIsPage(num: Option<nat>, count: int, height: nat)
    ensures PulledPage(num, count, height, None) == PageOf(num, count, height)
  {
  }

  /** A failing read changes the list exactly if it hits a block that is there and asked for: a
      failure counts as the end of the chain. */
  lemma FailedReadMattersExactlyWhen(num: Option<nat>, count: int, height: nat, k: nat)
    requires count != 0 && (num.Some? ==> num.value <= height)
    ensures PulledPage(num, count, height, Some(k)) != PageOf(num, count, height) <==>
            k < ToPull(num, count) && k < Room(FirstOf(num, count, height), count, height, None)
  {
    PulledIsPage(num, count, height);
  }

  /** The read of block 3 fails on a chain of six blocks: the two blocks read are said to be all. */
  lemma FailedReadExample()
    ensures PulledPage(None, 4, 5, Some(1)) == Ok(Page([5, 4], true, true))
    ensures PageOf(None, 4, 5) == Ok(Page([5, 4, 3, 2], true, false))
  {
    assert Descending(4, 6) == [5, 4] && Descending(2, 6) == [5, 4, 3, 2];
  }

  lemma ListedDown(num: Option<nat>, count: int, height: nat, fail: Option<nat>)
    requires count > 0 && (num.Some? ==> num.value <= height)
    ensures var first := FirstOf(num, count, height);
            var steps := Min(ToPull(num, count), Room(first, count, height, fail) + 1);
            Listed(first, count, num.Some?, steps) == PulledPage(num, count, height, fail).value.blocks
  {
  }

  lemma ListedUp(num: Option<nat>, count: int, height: nat, fail: Option<nat>)
    requires count < 0 && (num.Some? ==> num.value <= height)
    ensures var first := FirstOf(num, count, height);
            var steps := Min(ToPull(num, count), Room(first, count, height, fail) + 1);
            Listed(first, count, num.Some?, steps) == Reversed(PulledPage(num, count, height, fail).value.blocks)
  {
  }

  /** The walk passed the blocks of the list, in the order of the walk. */
  lemma ListedIsPulled(num: Option<nat>, count: int, height: nat, fail: Option<nat>)
    requires count != 0 && (num.Some? ==> num.value <= height)
    ensures var first := FirstOf(num, count, height);
            var room, toPull := Room(first, count, height, fail), ToPull(num, count);
            var listed := Listed(first, count, num.Some?, Min(toPull, room + 1));
            var page := PulledPage(num, count, height, fail).value;
            && listed == (if count > 0 then page.blocks else Reversed(page.blocks))
            && page.isStart == (if count > 0 then num.None? else room < toPull)
            && page.isEnd == (if count > 0 then room < toPull else num.None?)
  {
    if count > 0 {
      ListedDown(num, count, height, fail);
    } else {
      ListedUp(num, count, height, fail);
    }
  }

  // ---------------------------------------------------------------- loading

  const RECENT_CAPACITY: nat := 75

  /** What the ring of recent blocks has, newest first, up to the count. */
  function RecentPage(recent: seq<nat>, count: nat): Page {
    Page(Take(recent, count), true, false)
  }

  /** Whether a request is served from the ring. */
  predicate Quick(num: Option<nat>, count: int, recent: seq<nat>) {
    num.None? && 0 < count < RECENT_CAPACITY && recent != []
  }

  /** What a request returns: the recent blocks where they serve, else the blocks pulled. */
  function Answer(num: Option<nat>, count: int, height: nat, recent: seq<nat>, firstOk: bool, fail: Option<nat>)
    : Result<Page>
  {
    if Quick(num, count, recent) then Ok(RecentPage(recent, count))
    else if firstOk then PulledPage(num, count, height, fail)
    else Err
  }

  /** A request fails exactly if it asks for nothing, or if it is not served from the ring and the
      number is above the height, or the first block can not be read. */
  lemma AnswerFailsExactlyWhen(num: Option<nat>, count: int, height: nat, recent: seq<nat>, firstOk: bool,
                               fail: Option<nat>)
    ensures Answer(num, count, height, recent, firstOk, fail).Err? <==>
              || count == 0
              || ((num.Some? || count < 0 || count >= 75 || recent == [])
                  && (!firstOk || (num.Some? && height < num.value)))
  {
  }

  /** The shortcut is right exactly if the ring holds the newest blocks without a gap, and the
      list does not reach block zero. */
  lemma ShortcutRightExactlyWhen(recent: seq<nat>, count: nat, height: nat)
    requires 0 < count
    ensures RecentPage(recent, count) == PageOf(None, count, height).value <==>
            && count <= height && count <= |recent|
            && forall k :: 0 <= k < count ==> recent[k] == height - k
  {
    var page := RecentPage(recent, count);
    if page == PageOf(None, count, height).value {
      assert count <= |recent| && forall k :: 0 <= k < count ==> recent[k] == page.blocks[k];
    }
  }

  /** A ring that missed block 4 lists 5 and 3, and one that has the whole chain denies its end. */
  lemma ShortcutExamples()
    ensures RecentPage([5, 3, 2], 2) == Page([5, 3], true, false)
    ensures PageOf(None, 2, 5) == Ok(Page([5, 4], true, false))
    ensures RecentPage([1, 0], 2) == Page([1, 0], true, false)
    ensures PageOf(None, 2, 1) == Ok(Page([1, 0], true, true))
  {
    assert [5, 3, 2][..2] == [5, 3] && Descending(4, 6) == [5, 4] && Descending(0, 2) == [1, 0];
  }

  /** The node's chain of blocks 0 to `height`, and the blocks dispatched recently. */
  class Chain {
    var height: nat
    var recent: seq<nat>

    /** A block by its number, which is taken modulo 2^64, unless the read fails. */
    function BlockByNumber(number: int, fails: bool): (r: Option<nat>)
      reads this
      ensures -1 <= number <= height + 1 < UINT64_RANGE ==>
                r == if 0 <= number <= height && !fails then Some(number) else None
    {
      var tag := number % UINT64_RANGE;
      if tag <= height && !fails then Some(tag) else None
    }

    method InitBlockList(num: Option<nat>, count: int, firstOk: bool) returns (r: Result<(nat, BlockList)>)
      requires count != 0
      ensures r.Err? <==> !firstOk || (num.Some? && height < num.value)
      ensures r.Ok? ==>
                && r.value.0 == FirstOf(num, count, height) <= height
                && fresh(r.value.1) && r.value.1.collection == []
                && r.value.1.isStart == (num.None? && count > 0) && r.value.1.isEnd == (num.None? && count < 0)
    {
      var tag := height;
      if num.None? && count < 0 {
        tag := 0;
      } else if num.Some? {
        tag := num.value;
      }
      if tag > height || !firstOk {
        return Err;
      }
      var list := new BlockList(num.None? && count > 0, num.None? && count < 0);
      return Ok((tag, list));
    }

    /** Appends a block that is not the cursor itself. */
    method AppendBlock(list: BlockList, block: nat, num: Option<nat>,
                       ghost first: nat, ghost count: int, ghost steps: nat)
      requires count != 0 && block == Ahead(first, count, steps) && (num.Some? ==> first == num.value)
      requires list.collection == Listed(first, count, num.Some?, steps)
      modifies list`collection
      ensures list.collection == Listed(first, count, num.Some?, steps + 1)
    {
      if num.None? || block != num.value {
        list.collection := list.collection + [block];
      }
    }

    /** The block after the current one, if the chain has it and the read does not fail. */
    method NextBlock(current: nat, count: int, fail: Option<nat>, first: nat, i: nat) returns (next: Option<nat>)
      requires count != 0 && first <= height < UINT64_RANGE - 1
      requires i <= Room(first, count, height, fail) && current == Ahead(first, count, i)
      ensures next == if i < Room(first, count, height, fail) then Some(Ahead(first, count, i + 1)) else None
    {
      next := BlockByNumber(Ahead(current, count, 1), fail == Some(i));
    }

    /** The walk: the list gets a block once its successor was asked for; a block that is not
        there, or can not be read, ends the walk. */
    method Walk(num: Option<nat>, count: int, toPull: nat, first: nat, fail: Option<nat>, list: BlockList)
      returns (current: nat, next: Option<nat>)
      requires count != 0 && 0 < toPull && first <= height < UINT64_RANGE - 1
      requires (num.Some? ==> first == num.value) && list.collection == []
      modifies list`collection
      ensures var room := Room(first, count, height, fail);
              var steps := Min(toPull, room + 1) - 1;
              && current == Ahead(first, count, steps)
              && list.collection == Listed(first, count, num.Some?, steps)
              && (next.None? <==> room < toPull)
    {
      ghost var room, steps := Room(first, count, height, fail), 0;
      current, next := first, None;
      var i := 0;
      while i < toPull
        invariant i <= toPull && steps == (if i == 0 then 0 else i - 1) && i <= room
        invariant current == Ahead(first, count, steps)
        invariant next == if i == 0 then None else Some(Ahead(first, count, steps + 1))
        invariant list.collection == Listed(first, count, num.Some?, steps)
      {
        if next.Some? {
          AppendBlock(list, current, num, first, count, steps);
          current, steps := next.value, steps + 1;
        }
        next := NextBlock(current, count, fail, first, i);
        if next.None? {
          break;
        }
        i := i + 1;
      }
    }

    /** Walks from the first block, appends the last block reached and sets the flags. */
    method PullBlocks(num: Option<nat>, count: int, toPull: nat, first: nat, fail: Option<nat>, list: BlockList)
      requires count != 0 && 0 < toPull && first <= height < UINT64_RANGE - 1
      requires (num.Some? ==> first == num.value) && list.collection == []
      modifies list
      ensures var room := Room(first, count, height, fail);
              && list.collection == Listed(first, count, num.Some?, Min(toPull, room + 1))
              && list.isStart == (old(list.isStart) || (count < 0 && room < toPull))
              && list.isEnd == (old(list.isEnd) || (count > 0 && room < toPull))
    {
      var current, next := Walk(num, count, toPull, first, fail, list);
      AppendBlock(list, current, num, first, count, Min(toPull, Room(first, count, height, fail) + 1) - 1);
      list.isStart := list.isStart || (count < 0 && next.None?);
      list.isEnd := list.isEnd || (count > 0 && next.None?);
    }

    /** The list loaded block by block; `firstOk` and `fail` tell which reads of the node fail. */
    method MakeBlocksList(num: Option<nat>, count: int, firstOk: bool, fail: Option<nat>)
      returns (r: Result<BlockList>)
      requires count != 0 && height < UINT64_RANGE - 1
      ensures match if firstOk then PulledPage(num, count, height, fail) else Err
              case Err => r.Err?
              case Ok(page) => r.Ok? && fresh(r.value) && r.value.ToPage() == page
    {
      var init := InitBlockList(num, count, firstOk);
      if init.Err? {
        return Err;
      }
      var (first, list) := init.value;
      var toPull := if count < 0 then -count else count;
      if num.Some? {
        toPull := toPull + 1;
      }
      PullBlocks(num, count, toPull, first, fail, list);
      ListedIsPulled(num, count, height, fail);
      if count < 0 {
        ReversedTwice(PulledPage(num, count, height, fail).value.blocks);
        list.Reverse();
      }
      return Ok(list);
    }

    /** A list request, with the shortcut for the most recent blocks. */
    method Blocks(num: Option<nat>, count: int, firstOk: bool, fail: Option<nat>) returns (r: Result<BlockList>)
      requires height < UINT64_RANGE - 1
      ensures count == 0 ==> r.Err?
      ensures match Answer(num, count, height, recent, firstOk, fail)
              case Err => r.Err?
              case Ok(page) => r.Ok? && fresh(r.value) && r.value.ToPage() == page
    {
      if count == 0 {
        return Err;
      }
      if num.None? && 0 < count < RECENT_CAPACITY {
        r := RecentBlocks(count);
        if r.Ok? {
          return;
        }
      }
      r := MakeBlocksList(num, count, firstOk, fail);
    }

    method RecentBlocks(length: nat) returns (r: Result<BlockList>)
      ensures r.Err? <==> length == 0 || recent == []
      ensures r.Ok? ==> fresh(r.value) && r.value.ToPage() == RecentPage(recent, length)
    {
      var list := new BlockList(true, false);
      list.collection := Take(recent, length);
      if list.collection == [] {
        return Err;
      }
      return Ok(list);
    }
  }

  // ------------------------------------------------------------------ walks

  /** A request for a page downwards, and the height of the chain and the ring at that time. */
  datatype Request = Request(size: nat, height: nat, recent: seq<nat>)

  function Sum(requests: seq<Request>): nat {
    if requests == [] then 0 else requests[0].size + Sum(requests[1..])
  }

  /** The chain only grows, and every page asks for something. */
  ghost predicate Growing(requests: seq<Request>, height: int) {
    && (forall i :: 0 <= i < |requests| ==> 0 < requests[i].size && height <= requests[i].height)
    && forall i, j :: 0 <= i <= j < |requests| ==> requests[i].height <= requests[j].height
  }

  /** What a request down from a number, or from the top, returns while no read fails. */
  function Served(num: Option<nat>, request: Request): Result<Page> {
    Answer(num, request.size, request.height, request.recent, true, None)
  }

  lemma ServedIsPage(num: Option<nat>, request: Request)
    requires !Quick(num, request.size, request.recent)
    ensures Served(num, request) == PageOf(num, request.size, request.height)
  {
    PulledIsPage(num, request.size, request.height);
  }

  /** Pages downwards, each continuing at the last block of the one before, until one says it is
      the end; and whether one did. */
  function WalkDown(num: Option<nat>, requests: seq<Request>): (seq<nat>, bool)
    decreases |requests|
  {
    if requests == [] then ([], false)
    else
      match Served(num, requests[0])
      case Err => ([], false)
      case Ok(page) =>
        if page.isEnd || page.blocks == [] then (page.blocks, page.isEnd)
        else
          var (rest, ended) := WalkDown(Some(page.blocks[|page.blocks| - 1]), requests[1..]);
          (page.blocks + rest, ended)
  }

  lemma Joined(a: nat, b: nat, c: nat)
    requires a <= b <= c
    ensures Descending(b, c) + Descending(a, b) == Descending(a, c)
    ensures b < c ==> Descending(b, c) != [] && Descending(b, c)[c - b - 1] == b
  {
  }

  /** A page that is not the last one is followed by the rest of the walk. */
  lemma WalkDownContinues(num: Option<nat>, requests: seq<Request>, page: Page)
    requires requests != [] && Served(num, requests[0]) == Ok(page) && !page.isEnd && page.blocks != []
    ensures var (rest, ended) := WalkDown(Some(page.blocks[|page.blocks| - 1]), requests[1..]);
            WalkDown(num, requests) == (page.blocks + rest, ended)
  {
  }

  /** The page of the blocks below `hi`, from the top or from a number. */
  lemma PageBelow(num: Option<nat>, request: Request, hi: nat)
    requires 0 < request.size && !Quick(num, request.size, request.recent)
    requires if num.None? then hi == request.height + 1 else hi == num.value <= request.height
    ensures Served(num, request) ==
            Ok(Page(Descending(Max(0, hi - request.size), hi), num.None?, hi <= request.size))
  {
    ServedIsPage(num, request);
  }

  /** Pages from `hi` down, pulled from the node, list all below it, once each. */
  lemma {:induction false} WalkDownFrom(num: Option<nat>, requests: seq<Request>, hi: nat)
    requires requests == [] || !Quick(num, requests[0].size, requests[0].recent)
    requires num.Some? ==> num.value == hi && Growing(requests, hi)
    requires num.None? ==> requests != [] && hi == requests[0].height + 1 && Growing(requests, 0)
    ensures WalkDown(num, requests) ==
            (Descending(Max(0, hi - Sum(requests)), hi), requests != [] && hi <= Sum(requests))
    decreases |requests|
  {
    if requests != [] {
      PageBelow(num, requests[0], hi);
      if requests[0].size < hi {
        var lo := hi - requests[0].size;
        WalkDownContinues(num, requests, Page(Descending(lo, hi), num.None?, false));
        WalkDownFrom(Some(lo), requests[1..], lo);
        Joined(Max(0, lo - Sum(requests[1..])), lo, hi);
      }
    }
  }

  /** From the top, pages enumerate every block of the chain as it was when the walk began, once
      each and newest first, even if the chain grows meanwhile; the end is announced exactly when
      block zero has been reached. */
  lemma WalkDownEnumerates(requests: seq<Request>)
    requires requests != [] && Growing(requests, 0)
    requires !Quick(None, requests[0].size, requests[0].recent)
    ensures var top := requests[0].height;
            WalkDown(None, requests) ==
            (Descending(Max(0, top + 1 - Sum(requests)), top + 1), top + 1 <= Sum(requests))
  {
    WalkDownFrom(None, requests, requests[0].height + 1);
  }

  /** What the ring answers to a request it serves. */
  function FromRing(request: Request): (blocks: seq<nat>)
    requires Quick(None, request.size, request.recent)
    ensures blocks != []
  {
    RecentPage(request.recent, request.size).blocks
  }

  function Last(s: seq<nat>): nat
    requires s != []
  {
    s[|s| - 1]
  }

  /** A walk whose first page is the ring's lists what the ring has, and then all below the last
      of it; only a later page can announce the end. */
  lemma WalkFromRing(requests: seq<Request>)
    requires requests != [] && Quick(None, requests[0].size, requests[0].recent)
    requires Growing(requests[1..], Last(FromRing(requests[0])))
    ensures var first, rest := FromRing(requests[0]), Sum(requests[1..]);
            WalkDown(None, requests) ==
            (first + Descending(Max(0, Last(first) - rest), Last(first)), |requests| > 1 && Last(first) <= rest)
  {
    var first := FromRing(requests[0]);
    WalkDownContinues(None, requests, RecentPage(requests[0].recent, requests[0].size));
    WalkDownFrom(Some(Last(first)), requests[1..], Last(first));
  }

  lemma StretchIsSplit(first: seq<nat>, rest: nat, top: nat)
    requires first != [] && forall k :: 0 <= k < |first| ==> first[k] == top - k
    ensures first + Descending(Max(0, Last(first) - rest), Last(first)) ==
            Descending(Max(0, top + 1 - |first| - rest), top + 1)
  {
    assert first == Descending(Last(first), top + 1);
    Joined(Max(0, Last(first) - rest), Last(first), top + 1);
  }

  lemma SplitIsStretch(first: seq<nat>, more: seq<nat>, lo: nat, hi: nat)
    requires lo <= hi && first + more == Descending(lo, hi)
    ensures forall k :: 0 <= k < |first| ==> first[k] == hi - 1 - k
  {
    forall k | 0 <= k < |first|
      ensures first[k] == hi - 1 - k
    {
      assert (first + more)[k] == first[k];
    }
  }

  /** So it enumerates the chain down from a number exactly if the ring's part of it does. */
  lemma {:induction false} WalkFromRingEnumeratesExactlyWhen(requests: seq<Request>, top: nat)
    requires requests != [] && Quick(None, requests[0].size, requests[0].recent)
    requires Growing(requests[1..], Last(FromRing(requests[0])))
    ensures var first, rest := FromRing(requests[0]), Sum(requests[1..]);
            WalkDown(None, requests).0 == Descending(Max(0, top + 1 - |first| - rest), top + 1) <==>
            forall k :: 0 <= k < |first| ==> first[k] == top - k
  {
    WalkFromRing(requests);
    SplitExactlyWhen(FromRing(requests[0]), Sum(requests[1..]), top);
  }

  lemma SplitExactlyWhen(first: seq<nat>, rest: nat, top: nat)
    requires first != []
    ensures first + Descending(Max(0, Last(first) - rest), Last(first)) ==
            Descending(Max(0, top + 1 - |first| - rest), top + 1) <==>
            forall k :: 0 <= k < |first| ==> first[k] == top - k
  {
    var more := Descending(Max(0, Last(first) - rest), Last(first));
    var bottom := Max(0, top + 1 - |first| - rest);
    if first + more == Descending(bottom, top + 1) {
      SplitIsStretch(first, more, bottom, top + 1);
    } else if forall k :: 0 <= k < |first| ==> first[k] == top - k {
      StretchIsSplit(first, rest, top);
    }
  }

  /** What a request up from a number, or from the bottom, returns while no read fails. */
  function ServedUp(num: Option<nat>, request: Request): Result<Page> {
    Answer(num, -(request.size as int), request.height, request.recent, true, None)
  }

  /** The page of the blocks from `lo` up, the bottom or one past a number. */
  lemma PageAbove(num: Option<nat>, request: Request, lo: nat)
    requires 0 < request.size && lo <= request.height + 1
    requires lo == if num.None? then 0 else num.value + 1
    ensures ServedUp(num, request) ==
            Ok(Page(Descending(lo, Min(request.height + 1, lo + request.size)),
                    request.height + 1 <= lo + request.size, num.None?))
  {
    PulledIsPage(num, -(request.size as int), request.height);
  }

  /** A walk up: the blocks listed so far, newest first, the number to go on from, and whether a page
      has said that it is the start. */
  datatype Ascent = Ascent(listed: seq<nat>, from: Option<nat>, ended: bool)

  /** The next page of a walk up, which continues at the first block of the one before. */
  function Ascend(walk: Ascent, request: Request): Ascent {
    match ServedUp(walk.from, request)
    case Err => walk
    case Ok(page) =>
      if walk.ended then walk
      else if page.blocks == [] then walk.(ended := page.isStart)
      else Ascent(page.blocks + walk.listed, Some(page.blocks[0]), page.isStart)
  }

  function WalkUp(num: Option<nat>, requests: seq<Request>): Ascent {
    if requests == [] then Ascent([], num, false)
    else Ascend(WalkUp(num, requests[..|requests| - 1]), requests[|requests| - 1])
  }

  function SizesOf(requests: seq<Request>): nat {
    if requests == [] then 0 else SizesOf(requests[..|requests| - 1]) + requests[|requests| - 1].size
  }

  /** The walk has listed all blocks from `lo` up to, but not including, `top`, once and in order.
      While it goes on these are as many as were asked for, and not all there are; when it says that
      it has ended they reach the head of the chain, as one of the requests found it. */
  ghost predicate ListsUpTo(walk: Ascent, requests: seq<Request>, lo: nat, top: nat) {
    && lo <= top <= lo + SizesOf(requests) && walk.listed == Descending(lo, top)
    && top == (if walk.from.None? then 0 else walk.from.value + 1)
    && (!walk.ended ==> top == lo + SizesOf(requests))
    && (!walk.ended && requests != [] ==> top <= requests[|requests| - 1].height)
    && (walk.ended ==> exists i :: 0 <= i < |requests| && top == requests[i].height + 1)
  }

  lemma AscendPage(walk: Ascent, request: Request, lo: nat)
    requires !walk.ended && 0 < request.size && lo <= request.height + 1
    requires lo == if walk.from.None? then 0 else walk.from.value + 1
    ensures var hi := Min(request.height + 1, lo + request.size);
            Ascend(walk, request) ==
            Ascent(Descending(lo, hi) + walk.listed, if lo == hi then walk.from else Some(hi - 1),
                   hi == request.height + 1)
  {
    PageAbove(walk.from, request, lo);
  }

  /** Each page lists the next blocks, and ends the walk exactly when it reaches the head. */
  lemma AscendFurther(walk: Ascent, requests: seq<Request>, request: Request, lo: nat, top: nat) returns (top': nat)
    requires ListsUpTo(walk, requests, lo, top) && !walk.ended
    requires 0 < request.size && top <= request.height + 1
    ensures ListsUpTo(Ascend(walk, request), requests + [request], lo, top')
    ensures Ascend(walk, request).ended <==> top' == request.height + 1
  {
    top' := Min(request.height + 1, top + request.size);
    AscendPage(walk, request, top);
    Joined(lo, top, top');
    SizesAndLast(requests, request);
  }

  lemma SizesAndLast(requests: seq<Request>, request: Request)
    ensures SizesOf(requests + [request]) == SizesOf(requests) + request.size
    ensures (requests + [request])[|requests|] == request
    ensures forall i :: 0 <= i < |requests| ==> (requests + [request])[i] == requests[i]
  {
    assert (requests + [request])[..|requests|] == requests;
  }

  lemma StaysEnded(walk: Ascent, requests: seq<Request>, request: Request, lo: nat, top: nat)
    requires ListsUpTo(walk, requests, lo, top) && walk.ended
    ensures ListsUpTo(Ascend(walk, request), requests + [request], lo, top)
  {
    SizesAndLast(requests, request);
  }

  lemma NextFits(walk: Ascent, requests: seq<Request>, lo: nat, top: nat)
    requires requests != [] && Growing(requests, lo - 1)
    requires ListsUpTo(walk, requests[..|requests| - 1], lo, top) && !walk.ended
    ensures top <= requests[|requests| - 1].height + 1 && 0 < requests[|requests| - 1].size
  {
    if |requests| > 1 {
      assert requests[|requests| - 2].height <= requests[|requests| - 1].height;
    }
  }

  /** Pages upwards, from the bottom or from a number, list every block above it once and in order,
      even if the chain grows meanwhile, until they have reached its head. */
  lemma {:induction false} WalkUpEnumerates(num: Option<nat>, requests: seq<Request>, lo: nat) returns (top: nat)
    requires lo == (if num.None? then 0 else num.value + 1) && Growing(requests, lo - 1)
    ensures ListsUpTo(WalkUp(num, requests), requests, lo, top)
  {
    if requests == [] {
      return lo;
    }
    var init, last := requests[..|requests| - 1], requests[|requests| - 1];
    top := WalkUpEnumerates(num, init, lo);
    var walk := WalkUp(num, init);
    assert requests == init + [last] && WalkUp(num, requests) == Ascend(walk, last);
    if walk.ended {
      StaysEnded(walk, init, last, lo, top);
    } else {
      NextFits(walk, requests, lo, top);
      top := AscendFurther(walk, init, last, lo, top);
    }
  }

  /** On a chain that stays as it is such a walk lists all blocks there are, or as many as were asked
      for. */
  lemma ListedOfFixedChain(walk: Ascent, requests: seq<Request>, lo: nat, top: nat, height: nat)
    requires ListsUpTo(walk, requests, lo, top)
    requires requests != [] && forall i :: 0 <= i < |requests| ==> requests[i].height == height
    ensures walk.listed == Descending(lo, Min(height + 1, lo + SizesOf(requests)))
    ensures walk.ended <==> height + 1 <= lo + SizesOf(requests)
  {
  }
}
