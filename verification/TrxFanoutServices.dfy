/**
 The transaction dispatcher with the account and log workers as they run: `Process` pushes
 the events of one transaction while the others act between any two of its steps, and all
 that happens is a run of the state machine of TrxFanout.
 */
module TrxFanoutServices {
  import opened Wrappers
  import opened TrxFanout
  import opened TrxFanoutSafety

  /** How a push ended: sent, given up for the stop signal, or still waiting for room. */
  datatype Outcome = Pushed | StopSeen | Blocked

  /** What happens beside the dispatcher: the other workers' actions before the n-th push,
      and whether a stop wins over a free slot there. */
  datatype Others = Others(events: nat -> seq<Event>, stopWins: nat -> bool)

  predicate FromOthers(e: Event) {
    !(e.Begin? || e.Refuse? || e.Add? || e.Send? || e.Abandon? || e.SpawnWaiter?)
  }

  ghost predicate OnlyOthersAct(o: Others) {
    forall n: nat, e :: e in o.events(n) ==> FromOthers(e)
  }

  /** The job the dispatcher works on, ready for its next event. */
  ghost predicate Fanned(f: Fan, i: nat, t: Trx, sent: nat) {
    && f.current == Some(i) && i < |f.jobs|
    && f.jobs[i].trx == t && f.jobs[i].phase == Fanning && f.jobs[i].sent == sent
  }

  lemma OthersLeaveTheJob(f: Fan, e: Event, i: nat, t: Trx, sent: nat)
    requires Fanned(f, i, t, sent) && FromOthers(e)
    ensures Fanned(Step(f, e), i, t, sent) && Step(f, e).jobs[i].added == f.jobs[i].added
  {
  }

  class TrxServices {
    var jobs: seq<Job>
    var current: Option<nat>
    var outAccount: seq<Work>
    var outLog: seq<Work>
    var accountBusy: Option<Work>
    var logBusy: Option<Work>
    var stopped: bool
    var accountsEnded: bool
    var logsEnded: bool
    ghost var accountsHandled: seq<Work>
    ghost var logsHandled: seq<Work>
    var outTransaction: seq<nat>
    ghost var burned: seq<nat>
    var stored: seq<nat>
    var blkObserver: nat
    ghost var trace: seq<Event>  // all that happened so far

    ghost function Abstract(): Fan
      reads this
    {
      Fan(jobs, current, Worker(outAccount, accountBusy, accountsEnded, accountsHandled),
          Worker(outLog, logBusy, logsEnded, logsHandled), stopped, outTransaction, burned, stored, blkObserver)
    }

    ghost predicate Valid()
      reads this
    {
      Abstract() == Run(Init(), trace)
    }

    predicate AccountQueueFull()
      reads this
    {
      |outAccount| >= ACCOUNT_QUEUE_CAPACITY
    }

    predicate LogQueueFull()
      reads this
    {
      |outLog| >= LOG_QUEUE_CAPACITY
    }

    lemma ValidIsReachable()
      requires Valid()
      ensures Reachable(Abstract()) && Inv(Abstract())
    {
      ReachableInv(Abstract());
    }

    constructor ()
      ensures Valid() && Abstract() == Init()
    {
      jobs, current, outAccount, outLog := [], None, [], [];
      accountBusy, logBusy, stopped, stored, blkObserver := None, None, false, [], 1;
      accountsEnded, logsEnded, outTransaction := false, false, [];
      accountsHandled, logsHandled, burned, trace := [], [], [], [];
    }

    ghost method Record(e: Event, before: Fan)
      requires before == Run(Init(), trace) && Abstract() == Step(before, e)
      modifies this`trace
      ensures Valid() && trace == old(trace) + [e]
    {
      assert (trace + [e])[..|trace|] == trace;
      trace := trace + [e];
    }

    /** One action of a worker other than the dispatcher. */
    method Act(e: Event)
      requires Valid() && FromOthers(e)
      modifies this
      ensures Valid() && trace == old(trace) + [e]
      ensures Abstract() == Step(old(Abstract()), e)
    {
      ghost var before := Abstract();
      if e.Stop? {
        stopped := true;
      } else if e.Store? {
        WaitAndStore(e.job, e.writeOk);
      } else if e.TakeBurn? {
        TakeBurn();
      } else if e.TakeAccount? || e.FinishAccount? || e.EndAccounts? {
        HandleAccount(e);
      } else {
        HandleLog(e);
      }
      Record(e, before);
    }

    /** The burn dispatcher receives a transaction. */
    method TakeBurn()
      modifies this
      ensures Abstract() == Step(old(Abstract()), Event.TakeBurn) && trace == old(trace)
    {
      if outTransaction != [] {
        burned := burned + [outTransaction[0]];
        outTransaction := outTransaction[1..];
      }
    }

    method HandleAccount(e: Event)
      requires e.TakeAccount? || e.FinishAccount? || e.EndAccounts?
      modifies this
      ensures Abstract() == Step(old(Abstract()), e) && trace == old(trace)
    {
      if e.EndAccounts? {
        accountsEnded := accountsEnded || (stopped && accountBusy.None?);
      } else if e.TakeAccount? {
        if !accountsEnded && accountBusy.None? && outAccount != [] {
          accountBusy, outAccount := Some(outAccount[0]), outAccount[1..];
        }
      } else {
        FinishAccount();
      }
    }

    /** The account worker signals the wait group of the transaction it handled an event of. */
    method FinishAccount()
      modifies this
      ensures Abstract() == Step(old(Abstract()), Event.FinishAccount) && trace == old(trace)
    {
      if accountBusy.Some? && accountBusy.value.job < |jobs| {
        accountsHandled := accountsHandled + [accountBusy.value];
        SignalDone(accountBusy.value.job);
        accountBusy := None;
      }
    }

    method HandleLog(e: Event)
      requires e.TakeLog? || e.FinishLog? || e.EndLogs?
      modifies this
      ensures Abstract() == Step(old(Abstract()), e) && trace == old(trace)
    {
      if e.EndLogs? {
        logsEnded := logsEnded || (stopped && logBusy.None?);
      } else if e.TakeLog? {
        if !logsEnded && logBusy.None? && outLog != [] {
          logBusy, outLog := Some(outLog[0]), outLog[1..];
        }
      } else {
        FinishLog();
      }
    }

    method FinishLog()
      modifies this
      ensures Abstract() == Step(old(Abstract()), Event.FinishLog) && trace == old(trace)
    {
      if logBusy.Some? && logBusy.value.job < |jobs| {
        logsHandled := logsHandled + [logBusy.value];
        SignalDone(logBusy.value.job);
        logBusy := None;
      }
    }

    method SignalDone(i: nat)
      requires i < |jobs|
      modifies this`jobs
      ensures jobs == Done(old(jobs), i)
    {
      jobs := jobs[i := jobs[i].(wg := jobs[i].wg - 1)];
    }

    /** The waiter of a transaction: it stores it as soon as the wait group is empty, and leaves
        a failed write at that. */
    method WaitAndStore(i: nat, writeOk: bool)
      modifies this
      ensures Abstract() == Step(old(Abstract()), Store(i, writeOk)) && trace == old(trace)
    {
      if i < |jobs| && jobs[i].phase == Waiting && jobs[i].wg == 0 {
        if writeOk {
          stored := stored + [i];
        }
        blkObserver := jobs[i].trx.blk;
        jobs := jobs[i := jobs[i].(phase := if writeOk then Stored else Failed)];
      }
    }

    method Interfere(events: seq<Event>, ghost i: nat, ghost t: Trx, ghost sent: nat)
      requires Valid() && (forall e :: e in events ==> FromOthers(e))
      requires Fanned(Abstract(), i, t, sent)
      modifies this
      ensures Valid() && old(trace) <= trace
      ensures Fanned(Abstract(), i, t, sent) && jobs[i].added == old(jobs[i].added)
    {
      for k := 0 to |events|
        invariant Valid() && old(trace) <= trace
        invariant Fanned(Abstract(), i, t, sent) && jobs[i].added == old(jobs[i].added)
      {
        OthersLeaveTheJob(Abstract(), events[k], i, t, sent);
        Act(events[k]);
      }
    }

    method RaiseCounter(i: nat, ghost t: Trx, ghost sent: nat)
      requires Valid() && Fanned(Abstract(), i, t, sent) && !jobs[i].added && sent < Total(t)
      modifies this
      ensures Valid() && old(trace) <= trace
      ensures Fanned(Abstract(), i, t, sent) && jobs[i].added
    {
      ghost var before := Abstract();
      jobs := jobs[i := jobs[i].(added := true, wg := jobs[i].wg + 1)];
      assert Abstract() == Dispatch(before, i, Add);
      Record(Add, before);
    }

    /** Puts the event on the queue it belongs to, if that has room. */
    method TrySend(i: nat, item: Item, ghost t: Trx, ghost sent: nat) returns (ok: bool)
      requires Valid() && Fanned(Abstract(), i, t, sent) && jobs[i].added
      requires sent < Total(t) && item == ItemAt(t, sent)
      modifies this
      ensures Valid() && old(trace) <= trace && stopped == old(stopped)
      ensures Fanned(Abstract(), i, t, if ok then sent + 1 else sent) && jobs[i].added == !ok
      ensures ok <==> if sent < Accounts(t) then old(|outAccount|) < ACCOUNT_QUEUE_CAPACITY
                      else old(|outLog|) < LOG_QUEUE_CAPACITY
      ensures !ok ==> if sent < Accounts(t) then AccountQueueFull() else LogQueueFull()
    {
      ghost var before := Abstract();
      ok := if item.Account? then |outAccount| < ACCOUNT_QUEUE_CAPACITY else |outLog| < LOG_QUEUE_CAPACITY;
      if !ok {
        return;
      }
      Enqueue(i, item);
      Record(Send, before);
    }

    method Enqueue(i: nat, item: Item)
      requires current == Some(i) && i < |jobs| && jobs[i].added
      requires jobs[i].sent < Total(jobs[i].trx) && item == ItemAt(jobs[i].trx, jobs[i].sent)
      requires if item.Account? then |outAccount| < ACCOUNT_QUEUE_CAPACITY else |outLog| < LOG_QUEUE_CAPACITY
      modifies this`jobs, this`outAccount, this`outLog
      ensures Abstract() == Dispatch(old(Abstract()), i, Send)
      ensures |jobs| == old(|jobs|) && jobs[i] == old(jobs[i]).(added := false, sent := old(jobs[i].sent) + 1)
    {
      if item.Account? {
        outAccount := outAccount + [Work(i, item)];
      } else {
        outLog := outLog + [Work(i, item)];
      }
      jobs := jobs[i := jobs[i].(added := false, sent := jobs[i].sent + 1)];
    }

    method GiveUp(i: nat)
      requires Valid() && stopped && current == Some(i) && i < |jobs| && jobs[i].added
      modifies this
      ensures Valid() && old(trace) <= trace
      ensures current == None && stopped && i < |jobs| && jobs[i].phase == Cut
    {
      ghost var before := Abstract();
      jobs := jobs[i := jobs[i].(phase := Cut)];
      current := None;
      Record(Abandon, before);
    }

    /** Raises the wait group, then sends one event or gives up for the stop signal. */
    method Push(i: nat, item: Item, others: seq<Event>, stopWins: bool, ghost t: Trx, ghost sent: nat)
      returns (out: Outcome)
      requires Valid() && (forall e :: e in others ==> FromOthers(e))
      requires Fanned(Abstract(), i, t, sent) && !jobs[i].added && sent < Total(t) && item == ItemAt(t, sent)
      modifies this
      ensures Valid() && old(trace) <= trace
      ensures out == Pushed ==> Fanned(Abstract(), i, t, sent + 1) && !jobs[i].added
      ensures out == StopSeen ==> current == None && stopped && i < |jobs| && jobs[i].phase == Cut
      ensures out == Blocked ==> Fanned(Abstract(), i, t, sent) && jobs[i].added && !stopped
      ensures out == Blocked ==> if sent < Accounts(t) then AccountQueueFull() else LogQueueFull()
    {
      RaiseCounter(i, t, sent);
      Interfere(others, i, t, sent);
      if !(stopped && stopWins) {
        var ok := TrySend(i, item, t, sent);
        if ok {
          return Pushed;
        }
      }
      if stopped {
        GiveUp(i);
        return StopSeen;
      }
      return Blocked;
    }

    method PushAccounts(i: nat, t: Trx, o: Others) returns (out: Outcome)
      requires Valid() && OnlyOthersAct(o) && Fanned(Abstract(), i, t, 0) && !jobs[i].added
      modifies this
      ensures Valid() && old(trace) <= trace
      ensures out == Pushed ==> Fanned(Abstract(), i, t, Accounts(t)) && !jobs[i].added
      ensures out == StopSeen ==> current == None && stopped && i < |jobs| && jobs[i].phase == Cut
      ensures out == Blocked ==> current == Some(i) && !stopped && AccountQueueFull()
    {
      out := Push(i, Account(t.sender, Wallet), o.events(0), o.stopWins(0), t, 0);
      if out != Pushed {
        return;
      }
      if t.recipient.Some? {
        out := Push(i, Account(t.recipient.value, Wallet), o.events(1), o.stopWins(1), t, 1);
        if out != Pushed {
          return;
        }
      }
      if t.contract.None? {
        return;
      }
      out := Push(i, Account(t.contract.value, Contract), o.events(2), o.stopWins(2), t, Accounts(t) - 1);
    }

    method PushLogs(i: nat, t: Trx, o: Others) returns (out: Outcome)
      requires Valid() && OnlyOthersAct(o) && Fanned(Abstract(), i, t, Accounts(t)) && !jobs[i].added
      modifies this
      ensures Valid() && old(trace) <= trace
      ensures out == Pushed ==> Fanned(Abstract(), i, t, Total(t)) && !jobs[i].added
      ensures out == StopSeen ==> current == None && stopped && i < |jobs| && jobs[i].phase == Cut
      ensures out == Blocked ==> current == Some(i) && !stopped && LogQueueFull()
    {
      out := Pushed;
      for l := 0 to |t.logs|
        invariant Valid() && old(trace) <= trace && out == Pushed
        invariant Fanned(Abstract(), i, t, Accounts(t) + l) && !jobs[i].added
      {
        var n := Accounts(t) + l;
        out := Push(i, Log(t.logs[l]), o.events(n), o.stopWins(n), t, n);
        if out != Pushed {
          return;
        }
      }
    }

    method Begin(t: Trx) returns (i: nat)
      requires Valid() && current == None && |outTransaction| < BURN_QUEUE_CAPACITY
      modifies this
      ensures Valid() && old(trace) <= trace && i == old(|jobs|)
      ensures Fanned(Abstract(), i, t, 0) && !jobs[i].added
      ensures outTransaction == old(outTransaction) + [i]
    {
      ghost var before := Abstract();
      i := |jobs|;
      outTransaction := outTransaction + [i];
      jobs := jobs + [Job(t, Fanning, 0, false, 0)];
      current := Some(i);
      Record(Event.Begin(t), before);
    }

    method Refuse(t: Trx)
      requires Valid() && current == None && stopped
      modifies this
      ensures Valid() && old(trace) <= trace && current == None && stopped
      ensures |jobs| == old(|jobs|) + 1 && jobs[old(|jobs|)].phase == Cut
    {
      ghost var before := Abstract();
      jobs := jobs + [Job(t, Cut, 0, false, 0)];
      Record(Event.Refuse(t), before);
    }

    method SpawnWaiter(i: nat, ghost t: Trx)
      requires Valid() && Fanned(Abstract(), i, t, Total(t)) && !jobs[i].added
      modifies this
      ensures Valid() && old(trace) <= trace && current == None && i < |jobs|
      ensures jobs[i].trx == t && jobs[i].phase == Waiting && jobs[i].sent == Total(t)
    {
      ghost var before := Abstract();
      jobs := jobs[i := jobs[i].(phase := Waiting)];
      current := None;
      Record(Event.SpawnWaiter, before);
    }

    /** Fans out one transaction: the burn dispatcher first, then its accounts, its logs and the
        waiter.  It may still wait for room in the burn queue, before anything is changed. */
    method Process(t: Trx, stopWins: bool, o: Others) returns (i: nat, out: Outcome)
      requires Valid() && current == None && OnlyOthersAct(o)
      modifies this
      ensures Valid() && old(trace) <= trace && i == old(|jobs|)
      ensures out == Pushed ==> i < |jobs| && current == None && jobs[i].trx == t && jobs[i].phase == Waiting
      ensures out == StopSeen ==> i < |jobs| && current == None && stopped && jobs[i].phase == Cut
      ensures out == Blocked ==> !stopped && (current == Some(i) || Abstract() == old(Abstract()))
      ensures out == Blocked && current == Some(i) ==> AccountQueueFull() || LogQueueFull()
      ensures out == Blocked && current != Some(i) ==> |outTransaction| >= BURN_QUEUE_CAPACITY
    {
      i := |jobs|;
      if stopped && (stopWins || |outTransaction| >= BURN_QUEUE_CAPACITY) {
        Refuse(t);
        return i, StopSeen;
      }
      if |outTransaction| >= BURN_QUEUE_CAPACITY {
        return i, Blocked;
      }
      i := Begin(t);
      out := PushAccounts(i, t, o);
      if out == Pushed {
        out := PushLogs(i, t, o);
      }
      if out == Pushed {
        SpawnWaiter(i, t);
      } else if out == Blocked {
        ValidIsReachable();
      }
    }
  }
}
