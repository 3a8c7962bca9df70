/**
 The network crawler as it runs: the handler's loop, the goroutines it starts, and the
 shutdown, proved to follow the state machine of Crawler and to end with the feed closed.
 */
module CrawlerServices {
  import Spec = Crawler

  class NetCrawler {
    var iterators: set<nat>
    var running: map<nat, Spec.Traversal>
    var iteratorDone: seq<nat>
    var updateIterator: nat
    var made: nat
    var stopped: bool
    var phase: Spec.Phase
    var closed: set<nat>
    var waiting: bool
    ghost var drained: set<nat>
    ghost var trace: seq<Spec.Event>  // all that happened so far
    ghost const wasStopped: bool

    ghost function Abstract(): Spec.Crawler
      reads this
    {
      Spec.Crawler(iterators, running, iteratorDone, updateIterator, made, stopped, phase, closed, waiting, drained)
    }

    ghost predicate Valid()
      reads this
    {
      Abstract() == Spec.Run(Spec.Init(wasStopped), trace)
    }

    lemma ValidIsReachable()
      requires Valid()
      ensures Spec.Reachable(Abstract()) && Spec.Inv(Abstract())
    {
      Spec.ReachableInv(Abstract());
    }

    /** Starts the default batch and the first update batch. */
    constructor (stopped: bool)
      ensures Valid() && Abstract() == Spec.Init(stopped)
    {
      iterators, running, iteratorDone, updateIterator, made := {}, map[], [], 1, Spec.DEFAULT;
      this.stopped, phase, closed, waiting, drained := stopped, Spec.Handling, {}, false, {};
      trace, wasStopped := [], stopped;
      new;
      ScheduleDefaultBatch();
      ScheduleUpdateBatch();
    }

    ghost method Record(e: Spec.Event, before: Spec.Crawler)
      requires before == Spec.Run(Spec.Init(wasStopped), trace) && Abstract() == Spec.Step(before, e)
      modifies this`trace
      ensures Valid() && trace == old(trace) + [e]
    {
      assert (trace + [e])[..|trace|] == trace;
      trace := trace + [e];
    }

    method ScheduleDefaultBatch()
      modifies this
      ensures Abstract() == Spec.Schedule(old(Abstract())) && trace == old(trace)
    {
      iterators, running, made := iterators + {made}, running[made := Spec.Advancing], made + 1;
    }

    method ScheduleUpdateBatch()
      modifies this
      ensures Abstract() == Spec.Schedule(old(Abstract())).(update := old(made)) && trace == old(trace)
    {
      iterators, running := iterators + {made}, running[made := Spec.Advancing];
      updateIterator, made := made, made + 1;
    }

    /** One case of the handler's select. */
    method Handle(e: Spec.Event)
      requires Valid() && phase.Handling?
      requires e.TakeDone? || e.TakeNode? || e.UpdateTick?
      modifies this
      ensures Valid() && Abstract() == Spec.Step(old(Abstract()), e)
    {
      ghost var before := Abstract();
      match e {
        case TakeDone =>
          if iteratorDone != [] {
            iterators, iteratorDone := iterators - {iteratorDone[0]}, iteratorDone[1..];
          }
        case TakeNode(i) =>
          if i in running && running[i].Offering? {
            running := running[i := Spec.Advancing];
          }
        case UpdateTick =>
          if updateIterator !in iterators {
            ScheduleUpdateBatch();
          }
      }
      Record(e, before);
    }

    /** What the goroutine of an iterator does next, if nobody takes its node. */
    ghost function NextAction(i: nat, more: bool): Spec.Event
      requires i in running
      reads this
    {
      match running[i]
      case Advancing => Spec.Next(i, more)
      case Offering => Spec.GiveUp(i)
      case Returning => Spec.Signal(i)
    }

    /** One action of the goroutine of an iterator; `more` tells whether the iterator has
        another node. */
    method Traverse(i: nat, more: bool)
      requires Valid() && i in running
      modifies this
      ensures Valid() && Abstract() == Spec.Step(old(Abstract()), old(NextAction(i, more)))
      ensures iterators == old(iterators) && closed == old(closed) && stopped == old(stopped)
      ensures phase == old(phase) && waiting == old(waiting)
    {
      ghost var before, e := Abstract(), NextAction(i, more);
      match running[i] {
        case Advancing =>
          running := running[i := if more && i !in closed then Spec.Offering else Spec.Returning];
        case Offering =>
          if stopped {
            running := running[i := Spec.Returning];
          }
        case Returning =>
          ValidIsReachable();
          Spec.DoneNeverBlocks(Abstract(), i);
          running, iteratorDone := running - {i}, iteratorDone + [i];
      }
      Record(e, before);
    }

    /** A goroutine always acts once the service is stopped, and that brings its end closer. */
    lemma TraversalProgresses(i: nat, more: bool)
      requires Valid() && phase.Draining? && i in running
      ensures Spec.Work(Spec.Step(Abstract(), NextAction(i, more))) < Spec.Work(Abstract())
    {
      ValidIsReachable();
      var c, e := Abstract(), NextAction(i, more);
      if e.Signal? {
        Spec.DoneNeverBlocks(c, i);
      }
      assert i !in Spec.Step(c, e).running || Spec.Step(c, e).running[i] != c.running[i];
      Spec.ShutdownProgresses(c, e);
    }

    lemma SomeoneRuns()
      requires Valid() && waiting && (iteratorDone == [] || running != map[])
      ensures exists i :: i in running
    {
      ValidIsReachable();
      if iteratorDone == [] {
        Spec.ClosedIsOutstanding(Abstract());
      }
    }

    method ReceiveDone()
      requires Valid() && phase.Draining? && waiting && iteratorDone != []
      modifies this
      ensures Valid() && Abstract() == Spec.Step(old(Abstract()), Spec.Drain)
    {
      ghost var before := Abstract();
      drained := drained + {iteratorDone[0]};
      iteratorDone, waiting := iteratorDone[1..], false;
      Record(Spec.Drain, before);
    }

    /** Waits for the signal of one iterator, while goroutines run in any order. */
    method AwaitDone()
      requires Valid() && phase.Draining? && waiting
      modifies this
      ensures Valid() && phase.Draining? && !waiting
      ensures closed == old(closed) && iterators == old(iterators)
    {
      var receive := false;
      while iteratorDone == [] || (running != map[] && !receive)
        invariant Valid() && phase.Draining? && waiting
        invariant closed == old(closed) && iterators == old(iterators)
        decreases Spec.Work(Abstract())
      {
        SomeoneRuns();
        var i :| i in running;
        var more: bool := *;
        TraversalProgresses(i, more);
        Traverse(i, more);
        receive := *;
      }
      ReceiveDone();
    }

    method CloseIterator(i: nat)
      requires Valid() && phase.Draining? && !waiting && i in iterators && i !in closed
      modifies this
      ensures Valid() && Abstract() == Spec.Step(old(Abstract()), Spec.CloseNext(i))
    {
      ghost var before := Abstract();
      closed, waiting := closed + {i}, true;
      Record(Spec.CloseNext(i), before);
    }

    /** Closes the iterators one by one, waiting for a signal for each. */
    method DrainIterators()
      requires Valid() && phase.Draining? && !waiting && closed == {}
      modifies this
      ensures Valid() && phase.Draining? && !waiting
      ensures closed == iterators == old(iterators)
    {
      while closed != iterators
        invariant Valid() && phase.Draining? && !waiting
        invariant closed <= iterators == old(iterators)
        decreases iterators - closed
      {
        assert exists i :: i in iterators && i !in closed;
        var i :| i in iterators && i !in closed;
        CloseIterator(i);
        AwaitDone();
      }
    }

    /** The deferred end of the service: all iterators are drained, then the feed is closed. */
    method Shutdown()
      requires Valid() && phase.Handling? && stopped
      modifies this
      ensures Valid() && phase.Closed?
      ensures running == map[] && iteratorDone == [] && drained == iterators == old(iterators)
    {
      ghost var before := Abstract();
      ValidIsReachable();
      phase := Spec.Draining;
      Record(Spec.Exit, before);
      DrainIterators();
      ghost var last := Abstract();
      phase := Spec.Closed;
      Record(Spec.CloseFeed, last);
      ValidIsReachable();
      Spec.FeedClosedAfterAll(Abstract());
    }

    method Close()
      requires Valid()
      modifies this
      ensures Valid() && Abstract() == Spec.Step(old(Abstract()), Spec.Stop)
    {
      ghost var before := Abstract();
      stopped := true;
      Record(Spec.Stop, before);
    }

    /** The service from its start to its end: any interleaving of the handler, the
        goroutines and the stop signal, then the shutdown. */
    method Execute(es: seq<Spec.Event>)
      requires Valid() && phase.Handling?
      modifies this
      ensures Valid() && phase.Closed?
      ensures running == map[] && iteratorDone == [] && drained == iterators
    {
      for k := 0 to |es|
        invariant Valid() && phase.Handling?
      {
        match es[k] {
          case TakeDone => Handle(es[k]);
          case TakeNode(_) => Handle(es[k]);
          case UpdateTick => Handle(es[k]);
          case Next(i, more) => if i in running { Traverse(i, more); }
          case GiveUp(i) => if i in running { Traverse(i, false); }
          case Signal(i) => if i in running { Traverse(i, false); }
          case Stop => Close();
          case _ =>
        }
      }
      Close();
      Shutdown();
    }
  }
}
