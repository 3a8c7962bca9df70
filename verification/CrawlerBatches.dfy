/** The update batches of a running crawler: one is started whenever none is registered. */
module CrawlerBatches {
  import opened Crawler

  /** After an update tick of the handler the update batch is registered: the one there was, or a
      fresh one that is running, with all others as they were. */
  lemma UpdateTickRegisters(c: Crawler)
    requires Reachable(c) && c.phase.Handling?
    ensures var c' := Step(c, UpdateTick);
            && c'.update in c'.iterators
            && (c.update in c.iterators ==> c' == c)
            && (c.update !in c.iterators ==>
                  && c'.update !in c.iterators && c'.update !in c.running
                  && c'.iterators == c.iterators + {c'.update}
                  && c'.running == c.running[c'.update := Advancing]
                  && c' == c.(iterators := c'.iterators, running := c'.running, update := c'.update, made := c'.made))
  {
    ReachableInv(c);
    if c.made in c.running {
      assert c.made in multiset(c.running.Keys);
      assert c.made in multiset(c.iterators);
    }
  }

  /** A signal received ends the registration of its iterator, and of no other. */
  lemma TakeDoneUnregisters(c: Crawler)
    requires Reachable(c) && c.phase.Handling? && c.signals != []
    ensures var c' := Step(c, TakeDone);
            && c'.iterators == c.iterators - {c.signals[0]} && c.signals[0] in c.iterators
            && c' == c.(iterators := c'.iterators, signals := c.signals[1..])
  {
    SignalsAreKnown(c);
  }

  /** A goroutine offers each node of an iterator that is not closed, until the handler takes it or
      the service is stopped, and then goes on; it ends with the last node, or once closed. */
  lemma NodesAreOffered(c: Crawler, i: nat)
    requires i in c.running
    ensures c.running[i] == Advancing && i !in c.closed ==>
              Step(c, Next(i, true)) == c.(running := c.running[i := Offering])
    ensures c.running[i] == Advancing ==> Step(c, Next(i, false)) == c.(running := c.running[i := Returning])
    ensures c.running[i] == Offering && c.phase.Handling? ==>
              Step(c, TakeNode(i)) == c.(running := c.running[i := Advancing])
    ensures c.running[i] == Offering ==>
              Step(c, GiveUp(i)) == if c.stopped then c.(running := c.running[i := Returning]) else c
  {
  }

  /** How far the update batch is from the end of its goroutine. */
  function ToEnd(c: Crawler): nat {
    if c.update !in c.running then 0
    else match c.running[c.update]
         case Offering => 3
         case Advancing => 2
         case Returning => 1
  }

  /** An action that brings the next update batch closer. */
  function Towards(c: Crawler): Event {
    if c.update in c.running then
      match c.running[c.update]
      case Offering => TakeNode(c.update)
      case Advancing => Next(c.update, false)
      case Returning => Signal(c.update)
    else if c.update in c.iterators then TakeDone
    else UpdateTick
  }

  lemma CloserToNextBatch(c: Crawler)
    requires Reachable(c) && c.phase.Handling? && c.update in c.iterators
    ensures var c' := Step(c, Towards(c));
            && c'.phase.Handling? && c'.update == c.update && c'.made == c.made
            && (ToEnd(c') < ToEnd(c) || (ToEnd(c') == ToEnd(c) && |c'.signals| < |c.signals|))
  {
    ReachableInv(c);
    if c.update !in c.running {
      assert c.update in multiset(c.iterators);
      assert c.update in multiset(c.signals);
    } else if c.running[c.update].Returning? {
      DoneNeverBlocks(c, c.update);
    }
  }

  lemma RunFirst(c: Crawler, e: Event, rest: seq<Event>)
    ensures Run(c, [e] + rest) == Run(Step(c, e), rest)
  {
    assert [e][..0] == [] && Run(c, []) == c;
    assert Run(c, [e]) == Step(c, e);
    RunAppend(c, [e], rest);
  }

  lemma ReachableStep(c: Crawler, e: Event)
    requires Reachable(c)
    ensures Reachable(Step(c, e))
  {
    RunFirst(c, e, []);
    assert [e] + [] == [e];
    ReachableRun(c, [e]);
  }

  /** From every reachable state of the handler, some schedule starts a new update batch: the
      batch there is can end, the handler can learn of it, and then starts another. */
  lemma {:induction false} NextBatchCanStart(c: Crawler) returns (es: seq<Event>)
    requires Reachable(c) && c.phase.Handling?
    ensures var c' := Run(c, es);
            && c'.phase.Handling? && c'.update >= c.made && c'.update in c'.iterators
            && At(c', c'.update, Advancing)
    decreases ToEnd(c), |c.signals|, c.update in c.iterators
  {
    if c.update in c.iterators {
      var e := Towards(c);
      CloserToNextBatch(c);
      ReachableStep(c, e);
      var rest := NextBatchCanStart(Step(c, e));
      RunFirst(c, e, rest);
      es := [e] + rest;
    } else {
      UpdateTickRegisters(c);
      assert [UpdateTick][..0] == [] && Run(c, []) == c;
      es := [UpdateTick];
      assert Run(c, es) == Step(c, UpdateTick);
    }
  }
}
