/**
 New heads: when the idle state of the scanner ends, and the way of every head observed to the
 block queue, at once or by way of the cache.
 */
module BlockSyncHeads {
  import opened Wrappers
  import opened Sequences
  import opened BlockSync
  import opened BlockSyncSafety

  // -------------------------------------------------------------- idle state

  /** While the counter is less than 100 blocks behind the chain, a height read of a free idle
      scanner leaves it idle, and puts it back to the counter. */
  lemma IdleNearHead(n: Net)
    requires n.scan.onIdle && !Busy(n.scan) && n.height < n.scan.done + 100
    ensures var s := Step(n, ObserveTick(true)).scan;
            && s.onIdle && s.switching.None? && s.pulled.None?
            && s.next == s.from == s.done == n.scan.done && s.to == n.scan.to
  {
  }

  /** Further behind, the height becomes its target, and it turns active if that is not passed. */
  lemma IdleBehindHead(n: Net)
    requires n.scan.onIdle && !Busy(n.scan) && n.scan.done + 100 <= n.height
    ensures var s := Step(n, ObserveTick(true)).scan;
            && s.to == n.height && (s.next, s.from, s.done) == (n.scan.next, n.scan.from, n.scan.done)
            && (s.onIdle <==> n.height < n.scan.next)
            && s.switching == if s.onIdle then None else Some(false)
  {
  }

  /** An active scanner takes the height as its target, and goes idle if that is passed. */
  lemma ActiveHeightRead(n: Net)
    requires !n.scan.onIdle && !Busy(n.scan)
    ensures var s := Step(n, ObserveTick(true)).scan;
            && s.to == n.height && (s.next, s.from, s.done) == (n.scan.next, n.scan.from, n.scan.done)
            && (s.onIdle <==> n.height < n.scan.next)
            && s.switching == if s.onIdle then Some(true) else None
  {
  }

  /** An active scanner within its range pulls the next block if the node returns it, and else waits. */
  lemma PullsWhenAvailable(n: Net, heightOk: bool, blockOk: bool)
    requires !n.scan.onIdle && !Busy(n.scan) && n.scan.next <= n.scan.to
    ensures var n' := Step(n, ScanTick(heightOk, blockOk));
            && n'.scan.pulled == (if blockOk then Some(n.scan.next) else None)
            && n' == n.(scan := n.scan.(pulled := n'.scan.pulled))
  {
  }

  /** A height read that fails, or that finds the counter 100 blocks behind the chain and blocks
      left to scan. */
  predicate EndsIdle(n: Net, e: Event) {
    && !Busy(n.scan) && e.ObserveTick?
    && (e.heightOk ==> n.scan.done + 100 <= n.height && n.scan.next <= n.height)
  }

  /** Nothing else ends the idle state. */
  lemma IdleEndsExactlyWhen(n: Net, e: Event)
    requires n.scan.onIdle
    ensures !Step(n, e).scan.onIdle <==> EndsIdle(n, e)
  {
  }

  ghost predicate IdleThrough(n: Net, es: seq<Event>)
    decreases |es|
  {
    Run(n, es).scan.onIdle && (es != [] ==> IdleThrough(n, es[..|es| - 1]))
  }

  /** None of the events is one that ends the idle state. */
  ghost predicate NoneEndsIdle(n: Net, es: seq<Event>)
    decreases |es|
  {
    es != [] ==> NoneEndsIdle(n, es[..|es| - 1]) && !EndsIdle(Run(n, es[..|es| - 1]), es[|es| - 1])
  }

  lemma {:induction false} IdleThroughExactlyWhen(n: Net, es: seq<Event>)
    requires n.scan.onIdle
    ensures IdleThrough(n, es) <==> NoneEndsIdle(n, es)
    decreases |es|
  {
    if es != [] {
      var init := es[..|es| - 1];
      IdleThroughExactlyWhen(n, init);
      if IdleThrough(n, init) {
        IdleEndsExactlyWhen(Run(n, init), es[|es| - 1]);
      }
    }
  }

  /** The scanner rests: nothing is to be pulled, and the next block is the old one or at most the
      one last counted; and an orchestrator that pushes heads goes on with it. */
  ghost predicate Rests(n: Net, n0: Net) {
    && n.scan.onIdle && n.scanned == n0.scanned && n.scan.pulled == n0.scan.pulled
    && n.scan.switching != Some(false)
    && ((n.scan.next, n.scan.from) == (n0.scan.next, n0.scan.from) || n.scan.next == n.scan.from <= n.scan.done)
    && (n0.pushHeads && false !in n0.switches ==> n.pushHeads && false !in n.switches)
  }

  lemma RestsOn(n: Net, e: Event, n0: Net)
    requires Rests(n, n0) && n0.scan.pulled.None? && !EndsIdle(n, e)
    ensures Rests(Step(n, e), n0)
  {
    StepKeepsDone(n, e);
  }

  /** While nothing ends the idle state, the scanner pushes nothing and heads go on being pushed. */
  lemma {:induction false} IdleRun(n: Net, es: seq<Event>)
    requires n.scan.onIdle && n.scan.pulled.None? && n.scan.switching != Some(false)
    requires NoneEndsIdle(n, es)
    ensures Rests(Run(n, es), n)
    decreases |es|
  {
    if es != [] {
      IdleRun(n, es[..|es| - 1]);
      RestsOn(Run(n, es[..|es| - 1]), es[|es| - 1], n);
    }
  }

  /** What the orchestrator will take the scanner's state to be, once it has taken all switches. */
  function Told(n: Net): bool {
    if n.switches != [] then n.switches[|n.switches| - 1] else n.pushHeads
  }

  /** A state still to be advertised is the scanner's own, and differs from the one told last. */
  ghost predicate Follows(n: Net) {
    if n.scan.switching.Some? then n.scan.switching.value == n.scan.onIdle != Told(n)
    else Told(n) == n.scan.onIdle
  }

  lemma {:induction false} RunFollows(n: Net, es: seq<Event>)
    requires Follows(n)
    ensures Follows(Run(n, es))
    decreases |es|
  {
    if es != [] {
      RunFollows(n, es[..|es| - 1]);
      StepFollows(Run(n, es[..|es| - 1]), es[|es| - 1]);
    }
  }

  lemma StepFollows(n: Net, e: Event)
    requires Follows(n)
    ensures Follows(Step(n, e))
  {
  }

  /** When no change of state is on its way, heads are pushed at once exactly if the scanner is idle. */
  lemma OrchestratorFollows(start: nat, height: nat, heightOk: bool, es: seq<Event>)
    ensures var n := Run(Init(start, height, heightOk), es);
            n.scan.switching.None? && n.switches == [] ==> n.pushHeads == n.scan.onIdle
  {
    RunFollows(Init(start, height, heightOk), es);
  }

  // ------------------------------------------------------------------- heads

  /** A head that the orchestrator is free to take, and whose block the node returns. */
  predicate TakesHead(n: Net, e: Event) {
    n.pending == [] && e.NewHead? && e.blockOk && e.number <= n.height
  }

  /** The orchestrator learns that the scanner went idle. */
  predicate LearnsOfIdle(n: Net, e: Event) {
    n.pending == [] && e.TakeSwitch? && n.switches != [] && n.switches[0]
  }

  /** The heads taken during a scan, since the orchestrator last learned of an idle scanner. */
  function Kept(n: Net, es: seq<Event>): seq<nat>
    decreases |es|
  {
    if es == [] then []
    else
      var kept, m, e := Kept(n, es[..|es| - 1]), Run(n, es[..|es| - 1]), es[|es| - 1];
      if LearnsOfIdle(m, e) then []
      else if TakesHead(m, e) && !m.pushHeads then kept + [e.number]
      else kept
  }

  /** The last 50 of them, newest first. */
  function Newest(kept: seq<nat>): (s: seq<nat>)
    ensures |s| == Min(50, |kept|) && forall k :: 0 <= k < |s| ==> s[k] == kept[|kept| - 1 - k]
  {
    Take(Reversed(kept), 50)
  }

  lemma KeepOne(kept: seq<nat>, number: nat)
    ensures Newest(kept + [number]) == AddHead(Newest(kept), number)
  {
  }

  lemma CacheStep(n: Net, e: Event, kept: seq<nat>)
    requires n.cache == Newest(kept)
    ensures Step(n, e).cache ==
            if LearnsOfIdle(n, e) then []
            else if TakesHead(n, e) && !n.pushHeads then Newest(kept + [e.number])
            else n.cache
  {
    if e.NewHead? {
      KeepOne(kept, e.number);
    }
  }

  /** During a scan the cache holds the last 50 heads, newest first. */
  lemma {:induction false} CacheHoldsNewest(n: Net, es: seq<Event>)
    requires n.cache == []
    ensures Run(n, es).cache == Newest(Kept(n, es))
    decreases |es|
  {
    if es != [] {
      CacheHoldsNewest(n, es[..|es| - 1]);
      CacheStep(Run(n, es[..|es| - 1]), es[|es| - 1], Kept(n, es[..|es| - 1]));
    }
  }

  /** The blocks that are to be pushed for the heads taken, in that order: a head of an idle state
      at once, those kept during a scan when it ends. */
  function Due(n: Net, es: seq<Event>): seq<nat>
    decreases |es|
  {
    if es == [] then []
    else
      var due, m, e := Due(n, es[..|es| - 1]), Run(n, es[..|es| - 1]), es[|es| - 1];
      if LearnsOfIdle(m, e) then due + Newest(Kept(n, es[..|es| - 1]))
      else if TakesHead(m, e) && m.pushHeads then due + [e.number]
      else due
  }

  /** The blocks the orchestrator has put on the queue. */
  function Forwarded(n: Net, es: seq<Event>): seq<nat>
    decreases |es|
  {
    if es == [] then []
    else
      var m, e := Run(n, es[..|es| - 1]), es[|es| - 1];
      if e.PushPending? then Forwarded(n, es[..|es| - 1]) + Step(m, e).queued[|m.queued|..]
      else Forwarded(n, es[..|es| - 1])
  }

  lemma ForwardStep(n: Net, e: Event, due: seq<nat>, forwarded: seq<nat>, kept: seq<nat>)
    requires forwarded + n.pending == due && n.cache == kept
    ensures var due' := if LearnsOfIdle(n, e) then due + kept
                        else if TakesHead(n, e) && n.pushHeads then due + [e.number]
                        else due;
            var forwarded' := if e.PushPending? then forwarded + Step(n, e).queued[|n.queued|..] else forwarded;
            forwarded' + Step(n, e).pending == due'
  {
    match e
    case PushPending =>
      if n.pending != [] {
        assert n.pending == [n.pending[0]] + n.pending[1..];
      }
    case _ =>
  }

  /** No head is lost, and none is pushed out of turn: what was due has been queued, in order,
      but for what the orchestrator is still busy with. */
  lemma {:induction false} HeadsArePushedInOrder(n: Net, es: seq<Event>)
    requires n.cache == [] && n.pending == []
    ensures Forwarded(n, es) + Run(n, es).pending == Due(n, es)
    decreases |es|
  {
    if es != [] {
      var init := es[..|es| - 1];
      HeadsArePushedInOrder(n, init);
      CacheHoldsNewest(n, init);
      ForwardStep(Run(n, init), es[|es| - 1], Due(n, init), Forwarded(n, init), Newest(Kept(n, init)));
    }
  }

  lemma QueueStep(n: Net, e: Event)
    ensures n.queued <= Step(n, e).queued
    ensures var added := Step(n, e).queued[|n.queued|..];
            Step(n, e).scanned == if e.PushPending? then n.scanned else n.scanned + added
  {
  }

  lemma QueuedMore(queued: seq<nat>, queued': seq<nat>, scanned: seq<nat>, forwarded: seq<nat>)
    requires queued <= queued' && multiset(queued) == multiset(scanned) + multiset(forwarded)
    ensures var added := queued'[|queued|..];
            && multiset(queued') == multiset(scanned + added) + multiset(forwarded)
            && multiset(queued') == multiset(scanned) + multiset(forwarded + added)
  {
    assert queued' == queued + queued'[|queued|..];
  }

  /** All that was queued was scanned or forwarded. */
  lemma {:induction false} QueuedByEither(n: Net, es: seq<Event>)
    requires n.queued == n.scanned == []
    ensures var n' := Run(n, es);
            multiset(n'.queued) == multiset(n'.scanned) + multiset(Forwarded(n, es))
    decreases |es|
  {
    if es != [] {
      var init := es[..|es| - 1];
      QueuedByEither(n, init);
      QueueStep(Run(n, init), es[|es| - 1]);
      QueuedMore(Run(n, init).queued, Run(n, es).queued, Run(n, init).scanned, Forwarded(n, init));
    }
  }

  /** So when the orchestrator is free again, every head due is queued: in particular the last 50
      of the scan once it knows that this has ended. */
  lemma HeadsAreQueued(start: nat, height: nat, heightOk: bool, es: seq<Event>)
    ensures var n := Run(Init(start, height, heightOk), es);
            n.pending == [] ==> forall b :: b in Due(Init(start, height, heightOk), es) ==> b in n.queued
  {
    var n0 := Init(start, height, heightOk);
    HeadsArePushedInOrder(n0, es);
    QueuedByEither(n0, es);
    if Run(n0, es).pending == [] {
      forall b | b in Due(n0, es)
        ensures b in Run(n0, es).queued
      {
        assert b in multiset(Forwarded(n0, es));
        assert b in multiset(Run(n0, es).queued);
      }
    }
  }

  lemma {:induction false} DueOnlyGrows(n: Net, es: seq<Event>, more: seq<Event>)
    ensures Due(n, es) <= Due(n, es + more)
    decreases |more|
  {
    if more == [] {
      assert es + more == es;
    } else {
      DueOnlyGrows(n, es, more[..|more| - 1]);
      SplitLast(es, more);
    }
  }

  /** From a scan to its end: the heads kept are queued as soon as the orchestrator, told of the idle
      scanner, is free again. */
  lemma KeptAreQueued(start: nat, height: nat, heightOk: bool, es: seq<Event>, more: seq<Event>)
    requires var n0 := Init(start, height, heightOk);
             LearnsOfIdle(Run(n0, es), TakeSwitch) && Run(n0, es + [TakeSwitch] + more).pending == []
    ensures var n0 := Init(start, height, heightOk);
            forall b :: b in Newest(Kept(n0, es)) ==> b in Run(n0, es + [TakeSwitch] + more).queued
  {
    var n0, told := Init(start, height, heightOk), es + [TakeSwitch];
    assert told[..|told| - 1] == es;
    assert Due(n0, told) == Due(n0, es) + Newest(Kept(n0, es));
    DueOnlyGrows(n0, told, more);
    HeadsAreQueued(start, height, heightOk, told + more);
    forall b | b in Newest(Kept(n0, es))
      ensures b in Run(n0, told + more).queued
    {
      assert b in Due(n0, told);
      assert b in Due(n0, told + more);
    }
  }
}
