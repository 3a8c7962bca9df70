/**
 The network crawler as a state machine: a handler, one goroutine for every node iterator
 it has scheduled, and a shutdown that closes the iterators one by one, waiting for one
 signal for each.  An action that is not enabled leaves the state alone.
 */
module Crawler {
  const DONE_CAPACITY: nat := 5
  const DEFAULT: nat := 0

  /** What a goroutine does next: ask its iterator, offer a node, or signal its end. */
  datatype Traversal = Advancing | Offering | Returning

  datatype Phase = Handling | Draining | Closed

  datatype Crawler = Crawler(
    iterators: set<nat>,           // registered with the handler
    running: map<nat, Traversal>,  // goroutines, by their iterator
    signals: seq<nat>,             // iterators done, signalled and not received yet
    update: nat,                   // the latest update batch
    made: nat,                     // how many iterators were made
    stopped: bool,
    phase: Phase,
    closed: set<nat>,              // iterators closed by the shutdown
    waiting: bool,                 // the shutdown waits for a signal
    drained: set<nat>)             // signals received by the shutdown

  datatype Event =
    | Stop
    | TakeDone
    | TakeNode(i: nat)
    | UpdateTick
    | Exit
    | Next(i: nat, more: bool)
    | GiveUp(i: nat)
    | Signal(i: nat)
    | CloseNext(i: nat)
    | Drain
    | CloseFeed

  /** A new iterator is registered, and a goroutine traverses it. */
  function Schedule(c: Crawler): Crawler {
    c.(iterators := c.iterators + {c.made}, running := c.running[c.made := Advancing], made := c.made + 1)
  }

  /** The default batch and the first update batch. */
  function Init(stopped: bool): Crawler {
    Schedule(Schedule(Crawler({}, map[], [], 1, DEFAULT, stopped, Handling, {}, false, {})))
  }

  predicate At(c: Crawler, i: nat, t: Traversal) {
    i in c.running && c.running[i] == t
  }

  function Step(c: Crawler, e: Event): Crawler {
    match e
    case Stop => c.(stopped := true)
    case TakeDone =>
      if !c.phase.Handling? || c.signals == [] then c
      else c.(iterators := c.iterators - {c.signals[0]}, signals := c.signals[1..])
    case TakeNode(i) =>
      if !c.phase.Handling? || !At(c, i, Offering) then c
      else c.(running := c.running[i := Advancing])
    case UpdateTick =>
      if !c.phase.Handling? || c.update in c.iterators then c
      else Schedule(c).(update := c.made)
    case Exit =>
      if !c.phase.Handling? || !c.stopped then c else c.(phase := Draining)
    case Next(i, more) =>
      if !At(c, i, Advancing) then c
      else c.(running := c.running[i := if more && i !in c.closed then Offering else Returning])
    case GiveUp(i) =>
      if !At(c, i, Offering) || !c.stopped then c
      else c.(running := c.running[i := Returning])
    case Signal(i) =>
      if !At(c, i, Returning) || |c.signals| >= DONE_CAPACITY then c
      else c.(running := c.running - {i}, signals := c.signals + [i])
    case CloseNext(i) =>
      if !c.phase.Draining? || c.waiting || i !in c.iterators - c.closed then c
      else c.(closed := c.closed + {i}, waiting := true)
    case Drain =>
      if !c.phase.Draining? || !c.waiting || c.signals == [] then c
      else c.(drained := c.drained + {c.signals[0]}, signals := c.signals[1..], waiting := false)
    case CloseFeed =>
      if !c.phase.Draining? || c.waiting || c.closed != c.iterators then c
      else c.(phase := Closed)
  }

  function Run(c: Crawler, es: seq<Event>): Crawler
    decreases |es|
  {
    if es == [] then c else Step(Run(c, es[..|es| - 1]), es[|es| - 1])
  }

  // ------------------------------------------------------------- invariant

  /** Every registered iterator is in exactly one place: with its goroutine, in the signal
      queue, or received by the shutdown. */
  ghost predicate Conserved(c: Crawler) {
    multiset(c.iterators) == multiset(c.running.Keys) + multiset(c.signals) + multiset(c.drained)
  }

  ghost predicate ShutdownInOrder(c: Crawler) {
    && (c.phase.Handling? ==> c.closed == {} && c.drained == {} && !c.waiting)
    && (!c.phase.Handling? ==> c.stopped)
    && (c.phase.Closed? ==> c.closed == c.iterators && !c.waiting)
    && c.closed <= c.iterators
    && |c.closed| == |c.drained| + (if c.waiting then 1 else 0)
  }

  ghost predicate Inv(c: Crawler) {
    && Conserved(c)
    && DEFAULT < c.update < c.made
    && c.iterators <= {DEFAULT, c.update}
    && ShutdownInOrder(c)
  }

  lemma InitInv(stopped: bool)
    ensures Inv(Init(stopped))
  {
  }

  lemma FirstSignal(c: Crawler)
    requires Inv(c) && c.signals != []
    ensures multiset(c.signals) == multiset{c.signals[0]} + multiset(c.signals[1..])
    ensures c.signals[0] in c.iterators && c.signals[0] !in c.drained
  {
    assert c.signals == [c.signals[0]] + c.signals[1..];
    assert c.signals[0] in multiset(c.signals);
    assert multiset(c.iterators)[c.signals[0]] <= 1;
  }

  lemma AddOne(s: set<nat>, x: nat)
    requires x !in s
    ensures multiset(s + {x}) == multiset(s) + multiset{x}
  {
  }

  lemma WithoutOne(s: set<nat>, x: nat)
    requires x in s
    ensures multiset(s) == multiset(s - {x}) + multiset{x}
  {
    AddOne(s - {x}, x);
    assert s - {x} + {x} == s;
  }

  lemma Cancel(a: multiset<nat>, b: multiset<nat>, c: multiset<nat>, x: nat)
    requires a + multiset{x} == b + (c + multiset{x})
    ensures a == b + c
  {
    assert a == a + multiset{x} - multiset{x};
    assert b + c == b + (c + multiset{x}) - multiset{x};
  }

  lemma TakeDoneInv(c: Crawler)
    requires Inv(c) && Step(c, TakeDone) != c
    ensures Inv(Step(c, TakeDone))
  {
    var c', x := Step(c, TakeDone), c.signals[0];
    FirstSignal(c);
    WithoutOne(c.iterators, x);
    Cancel(multiset(c'.iterators), multiset(c.running.Keys) + multiset(c.drained), multiset(c'.signals), x);
  }

  lemma UpdateTickInv(c: Crawler)
    requires Inv(c) && Step(c, UpdateTick) != c
    ensures Inv(Step(c, UpdateTick))
  {
    var c' := Step(c, UpdateTick);
    assert c.made !in c.iterators;
    assert c.made !in c.running.Keys by {
      assert c.made !in multiset(c.iterators);
    }
    assert c'.running.Keys == c.running.Keys + {c.made};
    AddOne(c.iterators, c.made);
    AddOne(c.running.Keys, c.made);
    assert multiset(c'.iterators) == multiset(c.iterators) + multiset{c.made};
    assert multiset(c'.running.Keys) == multiset(c.running.Keys) + multiset{c.made};
  }

  lemma HandlerInv(c: Crawler, e: Event)
    requires Inv(c) && (e.TakeDone? || e.TakeNode? || e.UpdateTick? || e.Exit?)
    ensures Inv(Step(c, e))
  {
    if Step(c, e) != c {
      match e
      case TakeDone => TakeDoneInv(c);
      case TakeNode(i) => assert Step(c, e).running.Keys == c.running.Keys;
      case UpdateTick => UpdateTickInv(c);
      case Exit =>
    }
  }

  lemma SignalInv(c: Crawler, i: nat)
    requires Inv(c) && Step(c, Signal(i)) != c
    ensures Inv(Step(c, Signal(i)))
  {
    var c' := Step(c, Signal(i));
    assert c'.running.Keys == c.running.Keys - {i};
    WithoutOne(c.running.Keys, i);
    assert multiset(c'.signals) == multiset(c.signals) + multiset{i};
  }

  lemma TraversalInv(c: Crawler, e: Event)
    requires Inv(c) && (e.Next? || e.GiveUp? || e.Signal?)
    ensures Inv(Step(c, e))
  {
    if Step(c, e) != c {
      if e.Signal? {
        SignalInv(c, e.i);
      } else {
        assert Step(c, e).running.Keys == c.running.Keys;
      }
    }
  }

  lemma DrainInv(c: Crawler)
    requires Inv(c) && Step(c, Drain) != c
    ensures Inv(Step(c, Drain))
  {
    var c', x := Step(c, Drain), c.signals[0];
    FirstSignal(c);
    AddOne(c.drained, x);
    assert multiset(c'.drained) == multiset(c.drained) + multiset{x};
    assert multiset(c'.signals) + multiset{x} == multiset(c.signals);
    assert c'.running == c.running && c'.iterators == c.iterators;
  }

  lemma ShutdownInv(c: Crawler, e: Event)
    requires Inv(c) && (e.CloseNext? || e.Drain? || e.CloseFeed?)
    ensures Inv(Step(c, e))
  {
    if Step(c, e) != c && e.Drain? {
      DrainInv(c);
    }
  }

  lemma StepInv(c: Crawler, e: Event)
    requires Inv(c)
    ensures Inv(Step(c, e))
  {
    match e
    case Stop =>
    case CloseNext(_) => ShutdownInv(c, e);
    case Drain => ShutdownInv(c, e);
    case CloseFeed => ShutdownInv(c, e);
    case Next(_, _) => TraversalInv(c, e);
    case GiveUp(_) => TraversalInv(c, e);
    case Signal(_) => TraversalInv(c, e);
    case _ => HandlerInv(c, e);
  }

  ghost predicate Reachable(c: Crawler) {
    exists stopped, es :: c == Run(Init(stopped), es)
  }

  lemma {:induction false} RunInv(c: Crawler, es: seq<Event>)
    requires Inv(c)
    ensures Inv(Run(c, es))
    decreases |es|
  {
    if es != [] {
      RunInv(c, es[..|es| - 1]);
      StepInv(Run(c, es[..|es| - 1]), es[|es| - 1]);
    }
  }

  lemma ReachableInv(c: Crawler)
    requires Reachable(c)
    ensures Inv(c)
  {
    var stopped, es :| c == Run(Init(stopped), es);
    InitInv(stopped);
    RunInv(Init(stopped), es);
  }

  // -------------------------------------------------------------- theorems

  /** At most two iterators are registered, each of them running, signalled or drained. */
  lemma RegisteredAreAccounted(c: Crawler)
    requires Reachable(c)
    ensures |c.iterators| == |c.running| + |c.signals| + |c.drained| <= 2
    ensures c.phase.Handling? ==> |c.iterators| == |c.running| + |c.signals|
  {
    ReachableInv(c);
    SizeAtMost(c.iterators, {DEFAULT, c.update});
    assert |multiset(c.iterators)| == |c.running.Keys| + |c.signals| + |c.drained|;
  }

  lemma {:induction false} SizeAtMost(a: set<nat>, b: set<nat>)
    requires a <= b
    ensures |a| <= |b|
    ensures |a| == |b| ==> a == b
  {
    if x :| x in a {
      SizeAtMost(a - {x}, b - {x});
      assert b == (b - {x}) + {x};
      assert a == (a - {x}) + {x};
    }
  }

  /** A goroutine that has finished can always signal: the queue has room for it. */
  lemma DoneNeverBlocks(c: Crawler, i: nat)
    requires Reachable(c) && At(c, i, Returning)
    ensures |c.signals| < DONE_CAPACITY
    ensures Step(c, Signal(i)) == c.(running := c.running - {i}, signals := c.signals + [i])
  {
    RegisteredAreAccounted(c);
  }

  /** A signal the handler receives is always that of a registered iterator. */
  lemma SignalsAreKnown(c: Crawler)
    requires Reachable(c)
    ensures forall k :: 0 <= k < |c.signals| ==> c.signals[k] in c.iterators
    ensures forall j, k :: 0 <= j < k < |c.signals| ==> c.signals[j] != c.signals[k]
  {
    ReachableInv(c);
    forall k | 0 <= k < |c.signals|
      ensures c.signals[k] in c.iterators
    {
      assert c.signals[k] in multiset(c.signals);
      assert c.signals[k] in multiset(c.iterators);
    }
    forall j, k | 0 <= j < k < |c.signals|
      ensures c.signals[j] != c.signals[k]
    {
      assert c.signals == c.signals[..k] + c.signals[k..];
      assert c.signals[j] in c.signals[..k] && c.signals[k] in c.signals[k..];
      assert multiset(c.iterators)[c.signals[j]] <= 1;
    }
  }

  /** Once the feed is closed no goroutine is left that could send on it, and exactly the
      registered iterators have signalled. */
  lemma FeedClosedAfterAll(c: Crawler)
    requires Reachable(c) && c.phase.Closed?
    ensures c.running == map[] && c.signals == [] && c.drained == c.iterators
  {
    ReachableInv(c);
    RegisteredAreAccounted(c);
    assert |c.running| == 0;
    assert c.running.Keys == {};
    assert multiset(c.iterators) == multiset(c.drained);
    forall i: nat
      ensures i in c.iterators <==> i in c.drained
    {
      assert multiset(c.iterators)[i] == multiset(c.drained)[i];
    }
  }

  /** While the shutdown is not over, something can happen: it never hangs. */
  lemma ShutdownNeverHangs(c: Crawler)
    requires Inv(c) && c.phase.Draining?
    ensures exists e :: Step(c, e) != c
  {
    if !c.waiting {
      if c.closed == c.iterators {
        assert Step(c, CloseFeed) != c;
      } else {
        assert exists i :: i in c.iterators && i !in c.closed;
        var i :| i in c.iterators && i !in c.closed;
        assert i in Step(c, CloseNext(i)).closed;
      }
    } else if c.signals != [] {
      assert Step(c, Drain) != c;
    } else {
      ClosedIsOutstanding(c);
      var i :| i in c.closed && i in c.running;
      match c.running[i]
      case Advancing => assert At(Step(c, Next(i, false)), i, Returning);
      case Offering => assert At(Step(c, GiveUp(i)), i, Returning);
      case Returning => assert i !in Step(c, Signal(i)).running;
    }
  }

  /** The signal being waited for is owed by a closed iterator. */
  lemma ClosedIsOutstanding(c: Crawler)
    requires Inv(c) && c.waiting && c.signals == []
    ensures exists i :: i in c.closed && i in c.running
  {
    if c.closed <= c.drained {
      SizeAtMost(c.closed, c.drained);
      assert false;
    }
    var i :| i in c.closed && i !in c.drained;
    assert i in multiset(c.iterators);
    assert i in multiset(c.running.Keys);
  }

  /** How far a goroutine is from having signalled. */
  function Distance(c: Crawler, i: nat): nat {
    if i !in c.running then 0
    else match c.running[i]
         case Advancing => 3
         case Offering => 2
         case Returning => 1
  }

  /** What is left for the shutdown to do. */
  function Work(c: Crawler): nat {
    Distance(c, DEFAULT) + Distance(c, c.update)
    + 2 * |c.iterators - c.closed| + (if c.waiting then 1 else 0) + (if c.phase.Closed? then 0 else 1)
  }

  lemma RunningAreRegistered(c: Crawler, i: nat)
    requires Inv(c) && i in c.running
    ensures i == DEFAULT || i == c.update
  {
    assert i in multiset(c.running.Keys);
    assert i in multiset(c.iterators);
  }

  /** A goroutine has come further, and all else is as it was. */
  lemma CloserIsLess(c: Crawler, c': Crawler, i: nat)
    requires c.update == c'.update > DEFAULT && (i == DEFAULT || i == c.update)
    requires c'.iterators == c.iterators && c'.closed == c.closed && c'.waiting == c.waiting && c'.phase == c.phase
    requires Distance(c', i) < Distance(c, i)
    requires forall j :: j != i ==> Distance(c', j) == Distance(c, j)
    ensures Work(c') < Work(c)
  {
  }

  lemma StepsCloser(c: Crawler, e: Event, i: nat)
    requires Step(c, e) != c
    requires e == Next(i, false) || e == Next(i, true) || e == GiveUp(i) || e == Signal(i)
    ensures Distance(Step(c, e), i) < Distance(c, i)
    ensures forall j :: j != i ==> Distance(Step(c, e), j) == Distance(c, j)
    ensures Step(c, e) == c.(running := Step(c, e).running, signals := Step(c, e).signals)
  {
  }

  lemma TraversalProgresses(c: Crawler, e: Event, i: nat)
    requires Inv(c) && Step(c, e) != c
    requires e == Next(i, false) || e == Next(i, true) || e == GiveUp(i) || e == Signal(i)
    ensures Work(Step(c, e)) < Work(c)
  {
    RunningAreRegistered(c, i);
    StepsCloser(c, e, i);
    CloserIsLess(c, Step(c, e), i);
  }

  /** Whatever happens during the shutdown brings it closer to its end. */
  lemma ShutdownProgresses(c: Crawler, e: Event)
    requires Inv(c) && !c.phase.Handling? && Step(c, e) != c
    ensures Work(Step(c, e)) < Work(c)
    ensures !Step(c, e).phase.Handling?
  {
    match e
    case Next(i, _) => TraversalProgresses(c, e, i);
    case GiveUp(i) => TraversalProgresses(c, e, i);
    case Signal(i) => TraversalProgresses(c, e, i);
    case CloseNext(i) => ClosingProgresses(c, i);
    case _ =>
  }

  lemma ClosingProgresses(c: Crawler, i: nat)
    requires Step(c, CloseNext(i)) != c
    ensures Work(Step(c, CloseNext(i))) == Work(c) - 1
  {
    var c' := Step(c, CloseNext(i));
    assert forall j :: Distance(c', j) == Distance(c, j);
    assert c.iterators - c.closed == c'.iterators - c'.closed + {i};
  }

  /** Every event of the run does something. */
  ghost predicate Busy(c: Crawler, es: seq<Event>) {
    forall k :: 0 <= k < |es| ==> Step(Run(c, es[..k]), es[k]) != Run(c, es[..k])
  }

  /** However the goroutines are scheduled, a shutdown takes a bounded number of actions, and
      if nothing can happen any more then the feed is closed and all the goroutines ended. */
  lemma ShutdownEnds(c: Crawler, es: seq<Event>)
    requires Reachable(c) && c.phase.Draining? && Busy(c, es)
    ensures |es| <= Work(c) <= 12
    ensures (forall e :: Step(Run(c, es), e) == Run(c, es)) ==>
              Run(c, es).phase.Closed? && Run(c, es).running == map[] && Run(c, es).signals == []
  {
    ReachableInv(c);
    WorkShrinks(c, es);
    WorkIsBounded(c);
    ReachableRun(c, es);
    if forall e :: Step(Run(c, es), e) == Run(c, es) {
      QuietIsClosed(Run(c, es));
    }
  }

  lemma WorkIsBounded(c: Crawler)
    requires Inv(c)
    ensures Work(c) <= 12
  {
    SizeAtMost(c.iterators - c.closed, {DEFAULT, c.update});
  }

  lemma QuietIsClosed(c: Crawler)
    requires Reachable(c) && !c.phase.Handling? && forall e :: Step(c, e) == c
    ensures c.phase.Closed? && c.running == map[] && c.signals == []
  {
    ReachableInv(c);
    if c.phase.Draining? {
      ShutdownNeverHangs(c);
      assert false;
    }
    FeedClosedAfterAll(c);
  }

  lemma {:induction false} WorkShrinks(c: Crawler, es: seq<Event>)
    requires Inv(c) && !c.phase.Handling? && Busy(c, es)
    ensures |es| + Work(Run(c, es)) <= Work(c)
    ensures Inv(Run(c, es)) && !Run(c, es).phase.Handling?
    decreases |es|
  {
    if es != [] {
      var init, last := es[..|es| - 1], es[|es| - 1];
      assert Busy(c, init) by {
        assert forall k :: 0 <= k < |init| ==> init[..k] == es[..k];
      }
      WorkShrinks(c, init);
      ShutdownProgresses(Run(c, init), last);
      StepInv(Run(c, init), last);
    }
  }

  lemma {:induction false} RunAppend(c: Crawler, first: seq<Event>, more: seq<Event>)
    ensures Run(c, first + more) == Run(Run(c, first), more)
    decreases |more|
  {
    if more == [] {
      assert first + more == first;
    } else {
      var es := first + more;
      assert es[..|es| - 1] == first + more[..|more| - 1];
      RunAppend(c, first, more[..|more| - 1]);
    }
  }

  lemma ReachableRun(c: Crawler, es: seq<Event>)
    requires Reachable(c)
    ensures Reachable(Run(c, es))
  {
    var stopped, before :| c == Run(Init(stopped), before);
    RunAppend(Init(stopped), before, es);
  }
}
