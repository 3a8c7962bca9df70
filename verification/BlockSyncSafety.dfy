/**
 What block synchronisation keeps over whole runs: whatever the interleaving, the
 failed reads, the gaps and the order of the observed heads, no block is skipped.
 */
module BlockSyncSafety {
  import opened Wrappers
  import opened BlockSync

  ghost predicate Reachable(n: Net, start: nat) {
    exists height: nat, heightOk: bool, es: seq<Event> ::
      1 <= height && start <= height && n == Run(Init(start, height, heightOk), es)
  }

  lemma {:induction false} RunInv(n: Net, es: seq<Event>, start: nat)
    requires Inv(n, start)
    ensures Inv(Run(n, es), start)
    decreases |es|
  {
    if es != [] {
      RunInv(n, es[..|es| - 1], start);
      StepInv(Run(n, es[..|es| - 1]), es[|es| - 1], start);
    }
  }

  lemma ReachableInv(n: Net, start: nat)
    requires Reachable(n, start)
    ensures Inv(n, start)
  {
    var height: nat, heightOk: bool, es: seq<Event> :|
      1 <= height && start <= height && n == Run(Init(start, height, heightOk), es);
    InitInv(start, height, heightOk);
    RunInv(Init(start, height, heightOk), es, start);
  }

  lemma InvSkipsNothing(n: Net, start: nat)
    requires Inv(n, start)
    ensures NothingSkipped(n, start)
  {
    if n.consumed != [] {
      assert n.consumed <= n.queued;
      WatermarkCovers(n.consumed, start);
      assert Covers(n.received, start, n.scan.done + 1) by {
        forall b | start <= b < n.scan.done + 1
          ensures b in n.received
        {
          assert b in n.consumed;
        }
      }
    }
  }

  /** No reachable state has skipped a block. */
  lemma NoBlockSkipped(n: Net, start: nat)
    requires Reachable(n, start)
    ensures NothingSkipped(n, start)
  {
    ReachableInv(n, start);
    InvSkipsNothing(n, start);
  }

  /** A block never queued is never behind the scanner: whenever it scans again, it
      resumes at or before it; and a block never received is above the `done` counter. */
  lemma ResumesBeforeMissing(n: Net, start: nat, missing: nat)
    requires Reachable(n, start) && start <= missing
    ensures missing !in n.queued ==> n.scan.next <= missing
    ensures missing !in n.received && n.consumed != [] ==> n.scan.done < missing
  {
    NoBlockSkipped(n, start);
  }

  /** The scanner goes idle only when every block up to the height it just read is queued. */
  lemma GoesIdleCaughtUp(n: Net, e: Event, start: nat)
    requires Reachable(n, start)
    requires !n.scan.onIdle && Step(n, e).scan.onIdle
    ensures Step(n, e).scan.to == n.height
    ensures Covers(n.queued, start, n.height + 1)
  {
    NoBlockSkipped(n, start);
  }

  /** A missing block 100 blocks below the head wakes an idle scanner at the next height read,
      and it then scans from a block that is not past the missing one. */
  lemma MissingBlockWakesScanner(n: Net, start: nat, missing: nat)
    requires Reachable(n, start)
    requires n.scan.onIdle && !Busy(n.scan)
    requires start <= missing && missing !in n.queued
    requires missing + RESCAN_HYSTERESIS <= n.height
    ensures var s := Step(n, ObserveTick(true)).scan;
            !s.onIdle && s.next <= missing <= s.to && s.switching == Some(false)
  {
    ReachableInv(n, start);
    NoBlockSkipped(n, start);
    assert n.received <= n.queued;
    assert missing !in n.received;
  }

  // -------------------------------------------------------------- watermark

  lemma SplitLast(es: seq<Event>, more: seq<Event>)
    requires more != []
    ensures (es + more)[..|es + more| - 1] == es + more[..|more| - 1]
    ensures (es + more)[|es + more| - 1] == more[|more| - 1]
  {
  }

  lemma StepKeepsDone(n: Net, e: Event)
    ensures n.scan.done <= Step(n, e).scan.done
    ensures n.received <= Step(n, e).received && n.queued <= Step(n, e).queued
  {
  }

  /** The `done` counter never decreases, and neither history is ever rewritten. */
  lemma {:induction false} DoneNeverDecreases(n: Net, es: seq<Event>, more: seq<Event>)
    ensures Run(n, es).scan.done <= Run(n, es + more).scan.done
    ensures Run(n, es).received <= Run(n, es + more).received
    ensures Run(n, es).queued <= Run(n, es + more).queued
    decreases |more|
  {
    if more == [] {
      assert es + more == es;
    } else {
      var init, last := more[..|more| - 1], more[|more| - 1];
      DoneNeverDecreases(n, es, init);
      SplitLast(es, more);
      StepKeepsDone(Run(n, es + init), last);
    }
  }

  // ------------------------------------------------- when nothing is skipped

  ghost predicate AlwaysSafe(start: nat, height: nat, heightOk: bool) {
    forall es: seq<Event> :: NothingSkipped(Run(Init(start, height, heightOk), es), start)
  }

  ghost predicate CanReach(from: Net, to: Net) {
    exists es: seq<Event> :: to == Run(from, es)
  }

  lemma ReachStep(from: Net, mid: Net, e: Event)
    requires CanReach(from, mid)
    ensures CanReach(from, Step(mid, e))
  {
    var es: seq<Event> :| mid == Run(from, es);
    assert (es + [e])[..|es|] == es;
    assert Step(mid, e) == Run(from, es + [e]);
  }

  /** A head reported to the idle scanner, pushed, received and counted. */
  lemma HeadIsCounted(from: Net, n: Net, number: nat) returns (n': Net)
    requires CanReach(from, n)
    requires number <= n.height
    requires n.pending == [] && n.pushHeads && |n.queue| == 0 && n.holding.None? && n.dispatched == []
    requires !Busy(n.scan)
    ensures CanReach(from, n')
    ensures n'.received == n.received + [number] && n'.consumed == n.consumed + [number]
    ensures n'.scan.done == Advance(n.scan.done, number)
  {
    var n1 := Step(n, NewHead(number, true));
    ReachStep(from, n, NewHead(number, true));
    var n2 := Step(n1, PushPending);
    ReachStep(from, n1, PushPending);
    n' := QueuedIsCounted(from, n2);
  }

  /** What the three steps of counting a block change. */
  lemma CountingSteps(n: Net)
    requires |n.queue| == 1 && n.holding.None? && n.dispatched == [] && !Busy(n.scan)
    ensures Step(Step(Step(n, TakeBlock), ReportBlock), TakeDispatched) ==
            n.(queue := [], received := n.received + n.queue, consumed := n.consumed + n.queue,
               scan := n.scan.(done := Advance(n.scan.done, n.queue[0])))
  {
    assert n.queue == [n.queue[0]];
  }

  lemma QueuedIsCounted(from: Net, n: Net) returns (n': Net)
    requires CanReach(from, n)
    requires |n.queue| == 1 && n.holding.None? && n.dispatched == [] && !Busy(n.scan)
    ensures CanReach(from, n')
    ensures n'.received == n.received + n.queue && n'.consumed == n.consumed + n.queue
    ensures n'.scan == n.scan.(done := Advance(n.scan.done, n.queue[0]))
    ensures n'.queue == [] && n'.holding.None? && n'.dispatched == []
    ensures n'.pending == n.pending && n'.pushHeads == n.pushHeads && n'.switches == n.switches
    ensures n'.height == n.height && n'.cache == n.cache
  {
    ReachStep(from, n, TakeBlock);
    ReachStep(from, Step(n, TakeBlock), ReportBlock);
    ReachStep(from, Step(Step(n, TakeBlock), ReportBlock), TakeDispatched);
    CountingSteps(n);
    n' := n.(queue := [], received := n.received + n.queue, consumed := n.consumed + n.queue,
             scan := n.scan.(done := Advance(n.scan.done, n.queue[0])));
  }

  /** A scanner past its target goes idle, and the orchestrator starts pushing heads. */
  lemma GoesIdle(from: Net, n: Net) returns (n': Net)
    requires CanReach(from, n)
    requires !n.scan.onIdle && !Busy(n.scan) && n.scan.to < n.scan.next && n.height < n.scan.next
    requires n.switches == [] && n.pending == [] && n.cache == []
    ensures CanReach(from, n')
    ensures n'.pushHeads && !Busy(n'.scan) && n'.pending == []
    ensures n'.scan.done == n.scan.done && n'.queue == n.queue && n'.holding == n.holding
    ensures n'.dispatched == n.dispatched && n'.received == n.received && n'.consumed == n.consumed
    ensures n'.height == n.height
  {
    var n1 := Step(n, ScanTick(true, true));
    ReachStep(from, n, ScanTick(true, true));
    var n2 := Step(n1, SendSwitch);
    ReachStep(from, n1, SendSwitch);
    n' := Step(n2, TakeSwitch);
    ReachStep(from, n2, TakeSwitch);
  }

  /** A chain shorter than the start block lets the scanner go idle, and once it has grown
      past that block a head above it is counted first. */
  lemma StartAboveHeightSkips(start: nat, height: nat, heightOk: bool)
    requires height < start
    ensures !AlwaysSafe(start, height, heightOk)
  {
    var n := Init(start, height, heightOk);
    assert n == Run(n, []);
    var n1 := GoesIdle(n, n);
    ReachStep(n, n1, GrowChain(start + 1 - height));
    var n2 := Step(n1, GrowChain(start + 1 - height));
    var n3 := HeadIsCounted(n, n2, start + 1);
    assert n3.received == [start + 1];
    assert start !in n3.received;
  }

  lemma PushesBlockZero(heightOk: bool) returns (n: Net)
    ensures CanReach(Init(0, 0, heightOk), n)
    ensures n == Init(0, 0, heightOk).(queue := [0], queued := [0], scanned := [0],
                                       scan := Init(0, 0, heightOk).scan.(next := 1))
  {
    var from := Init(0, 0, heightOk);
    assert from == Run(from, []);
    ReachStep(from, from, ScanTick(true, true));
    n := Step(from, ScanTick(true, true));
    ReachStep(from, n, PushPulled);
    n := Step(n, PushPulled);
  }

  /** From block zero, `done == 0` is still taken for "nothing dispatched yet": when the chain
      grows by two blocks at once, the second is counted without the first. */
  lemma EmptyChainSkips(heightOk: bool)
    ensures !AlwaysSafe(0, 0, heightOk)
  {
    var n := Init(0, 0, heightOk);
    var n1 := PushesBlockZero(heightOk);
    var n2 := QueuedIsCounted(n, n1);
    var n3 := GoesIdle(n, n2);
    ReachStep(n, n3, GrowChain(2));
    var n4 := HeadIsCounted(n, Step(n3, GrowChain(2)), 2);
    assert n4.received == [0, 2];
    assert 1 !in n4.received;
  }

  /** Exactly when no run skips a block: the chain has at least one block above zero and has
      reached the start block when the scan begins. */
  lemma SafeExactlyWhenChainReachesStart(start: nat, height: nat, heightOk: bool)
    ensures AlwaysSafe(start, height, heightOk) <==> 1 <= height && start <= height
  {
    if 1 <= height && start <= height {
      forall es: seq<Event>
        ensures NothingSkipped(Run(Init(start, height, heightOk), es), start)
      {
        assert Reachable(Run(Init(start, height, heightOk), es), start);
        NoBlockSkipped(Run(Init(start, height, heightOk), es), start);
      }
    } else if height < start {
      StartAboveHeightSkips(start, height, heightOk);
    } else {
      EmptyChainSkips(heightOk);
    }
  }
}
