/** What the fan-out keeps for every interleaving of its workers and a stop at any step. */
module TrxFanoutSafety {
  import opened Wrappers
  import opened TrxFanout

  ghost predicate Reachable(f: Fan) {
    exists es: seq<Event> :: f == Run(Init(), es)
  }

  lemma {:induction false} RunInv(es: seq<Event>)
    ensures Inv(Run(Init(), es))
    decreases |es|
  {
    if es != [] {
      RunInv(es[..|es| - 1]);
      StepInv(Run(Init(), es[..|es| - 1]), es[|es| - 1]);
    }
  }

  lemma ReachableInv(f: Fan)
    requires Reachable(f)
    ensures Inv(f)
  {
    var es: seq<Event> :| f == Run(Init(), es);
    RunInv(es);
  }

  lemma SplitLast(es: seq<Event>, more: seq<Event>)
    requires more != []
    ensures (es + more)[..|es + more| - 1] == es + more[..|more| - 1]
    ensures (es + more)[|es + more| - 1] == more[|more| - 1]
  {
  }

  lemma {:induction false} RunAppend(f: Fan, es: seq<Event>, more: seq<Event>)
    ensures Run(f, es + more) == Run(Run(f, es), more)
    decreases |more|
  {
    if more == [] {
      assert es + more == es;
    } else {
      RunAppend(f, es, more[..|more| - 1]);
      SplitLast(es, more);
    }
  }

  lemma ReachableRun(f: Fan, more: seq<Event>)
    requires Reachable(f)
    ensures Reachable(Run(f, more))
  {
    var es: seq<Event> :| f == Run(Init(), es);
    RunAppend(Init(), es, more);
  }

  lemma ReachableStep(f: Fan, e: Event)
    requires Reachable(f)
    ensures Reachable(Step(f, e))
  {
    ReachableRun(f, [e]);
    assert [e][..0] == [] && Run(f, []) == f;
    assert Run(f, [e]) == Step(f, e);
  }

  /** The wait group counts the events sent and not handled, plus one addition at most:
      the one in progress, or the one a stopped push left behind. */
  lemma CounterIsOutstanding(f: Fan, i: nat)
    requires Reachable(f) && i < |f.jobs|
    ensures var j := f.jobs[i];
            && j.wg == Open(f.accounts, i) + Open(f.logs, i) + (if j.added then 1 else 0)
            && (j.added ==> j.phase == Fanning || j.phase == Cut)
  {
    ReachableInv(f);
    assert JobInv(f, i);
  }

  lemma BusyIsOpen(w: Worker)
    requires w.busy.Some?
    ensures 1 <= Open(w, w.busy.value.job)
  {
    FinishKeeps(w, w.busy.value.job);
  }

  /** A worker never signals an empty wait group. */
  lemma SignalsAreOwed(f: Fan)
    requires Reachable(f)
    ensures f.accounts.busy.Some? ==>
              f.accounts.busy.value.job < |f.jobs| && 1 <= f.jobs[f.accounts.busy.value.job].wg
    ensures f.logs.busy.Some? ==> f.logs.busy.value.job < |f.jobs| && 1 <= f.jobs[f.logs.busy.value.job].wg
  {
    ReachableInv(f);
    if f.accounts.busy.Some? {
      assert Sent(f.accounts)[|f.accounts.handled|] == f.accounts.busy.value;
      assert JobInv(f, f.accounts.busy.value.job);
      BusyIsOpen(f.accounts);
    }
    if f.logs.busy.Some? {
      assert Sent(f.logs)[|f.logs.handled|] == f.logs.busy.value;
      assert JobInv(f, f.logs.busy.value.job);
      BusyIsOpen(f.logs);
    }
  }

  /** A job whose fan-out was cut, or whose write failed. */
  predicate GivenUp(j: Job) {
    j.phase == Cut || j.phase == Failed
  }

  lemma StepKeepsGivenUp(f: Fan, e: Event, i: nat)
    requires i < |f.jobs| && JobInv(f, i) && GivenUp(f.jobs[i])
    ensures i < |Step(f, e).jobs| && Step(f, e).jobs[i].phase == f.jobs[i].phase
  {
    match e
    case Add => GivenUpIsNotCurrent(f, e, i);
    case Send => GivenUpIsNotCurrent(f, e, i);
    case Abandon => GivenUpIsNotCurrent(f, e, i);
    case SpawnWaiter => GivenUpIsNotCurrent(f, e, i);
    case _ =>
  }

  lemma GivenUpIsNotCurrent(f: Fan, e: Event, i: nat)
    requires i < |f.jobs| && JobInv(f, i) && GivenUp(f.jobs[i])
    requires e.Add? || e.Send? || e.Abandon? || e.SpawnWaiter?
    ensures i < |Step(f, e).jobs| && Step(f, e).jobs[i].phase == f.jobs[i].phase
  {
  }

  lemma {:induction false} RunKeepsGivenUp(f: Fan, i: nat, more: seq<Event>)
    requires Reachable(f) && i < |f.jobs| && GivenUp(f.jobs[i])
    ensures i < |Run(f, more).jobs| && Run(f, more).jobs[i].phase == f.jobs[i].phase
    decreases |more|
  {
    if more != [] {
      var init := more[..|more| - 1];
      RunKeepsGivenUp(f, i, init);
      ReachableRun(f, init);
      ReachableInv(Run(f, init));
      StepKeepsGivenUp(Run(f, init), more[|more| - 1], i);
    }
  }

  lemma GivenUpNeverStored(f: Fan, i: nat, more: seq<Event>)
    requires Reachable(f) && i < |f.jobs| && GivenUp(f.jobs[i])
    ensures i !in Run(f, more).stored
  {
    RunKeepsGivenUp(f, i, more);
    ReachableRun(f, more);
    ReachableInv(Run(f, more));
    assert JobInv(Run(f, more), i);
  }

  /** A transaction whose fan-out was cut by the stop is never stored. */
  lemma CutNeverStored(f: Fan, i: nat, more: seq<Event>)
    requires Reachable(f) && i < |f.jobs| && f.jobs[i].phase == Cut
    ensures i !in Run(f, more).stored
  {
    GivenUpNeverStored(f, i, more);
  }

  /** A transaction whose write failed is never stored either: no one tries again. */
  lemma FailedNeverStored(f: Fan, i: nat, more: seq<Event>)
    requires Reachable(f) && i < |f.jobs| && f.jobs[i].phase == Waiting && f.jobs[i].wg == 0
    ensures i !in Run(Step(f, Store(i, false)), more).stored
  {
    ReachableStep(f, Store(i, false));
    GivenUpNeverStored(Step(f, Store(i, false)), i, more);
  }

  /** The burn dispatcher is sent every transaction that was not refused, once and in the
      order in which they came. */
  lemma {:induction false} BurnsInOrder(es: seq<Event>)
    ensures BurnInv(Run(Init(), es))
    decreases |es|
  {
    if es != [] {
      var init := es[..|es| - 1];
      BurnsInOrder(init);
      RunInv(init);
      StepBurnInv(Run(Init(), init), es[|es| - 1]);
    }
  }

  // --------------------------------------------------------------- progress

  /** An event of the job is left in the queue of a worker that has ended. */
  predicate Stranded(f: Fan, i: nat) {
    (f.accounts.ended && Of(f.accounts.queue, i) != []) || (f.logs.ended && Of(f.logs.queue, i) != [])
  }

  function LoadOf(w: Worker): nat {
    2 * |w.queue| + if w.busy.Some? then 1 else 0
  }

  function Load(f: Fan): nat {
    LoadOf(f.accounts) + LoadOf(f.logs)
  }

  /** A worker with an open event of the job that has not ended on it can go on. */
  lemma OpenCanGoOn(w: Worker, i: nat)
    requires Open(w, i) > 0 && !(w.ended && Of(w.queue, i) != []) && (w.ended ==> w.busy.None?)
    ensures w.busy.Some? ==> LoadOf(Finish(w)) < LoadOf(w)
    ensures w.busy.None? ==> LoadOf(Take(w)) < LoadOf(w)
  {
    OpenNeedsWork(w, i);
  }

  lemma OpenNeedsWork(w: Worker, i: nat)
    ensures w.busy.None? && w.queue == [] ==> Open(w, i) == 0
  {
  }

  /** A useful action of one of the two workers. */
  lemma WorkerCanAct(f: Fan, i: nat) returns (e: Event)
    requires Inv(f) && i < |f.jobs| && f.jobs[i].phase == Waiting && f.jobs[i].wg != 0 && !Stranded(f, i)
    ensures Load(Step(f, e)) < Load(f)
    ensures i < |Step(f, e).jobs| && Step(f, e).jobs[i].phase == Waiting && !Stranded(Step(f, e), i)
  {
    assert JobInv(f, i);
    if Open(f.accounts, i) > 0 {
      e := AccountsCanAct(f, i);
    } else {
      e := LogsCanAct(f, i);
    }
  }

  lemma AccountsCanAct(f: Fan, i: nat) returns (e: Event)
    requires IndexInv(f) && i < |f.jobs| && f.jobs[i].phase == Waiting && Open(f.accounts, i) > 0 && !Stranded(f, i)
    ensures Load(Step(f, e)) < Load(f)
    ensures i < |Step(f, e).jobs| && Step(f, e).jobs[i].phase == Waiting && !Stranded(Step(f, e), i)
  {
    OpenCanGoOn(f.accounts, i);
    e := if f.accounts.busy.Some? then FinishAccount else TakeAccount;
    if f.accounts.busy.Some? {
      assert Sent(f.accounts)[|f.accounts.handled|] == f.accounts.busy.value;
    }
  }

  lemma LogsCanAct(f: Fan, i: nat) returns (e: Event)
    requires IndexInv(f) && i < |f.jobs| && f.jobs[i].phase == Waiting && Open(f.logs, i) > 0 && !Stranded(f, i)
    ensures Load(Step(f, e)) < Load(f)
    ensures i < |Step(f, e).jobs| && Step(f, e).jobs[i].phase == Waiting && !Stranded(Step(f, e), i)
  {
    OpenCanGoOn(f.logs, i);
    e := if f.logs.busy.Some? then FinishLog else TakeLog;
    if f.logs.busy.Some? {
      assert Sent(f.logs)[|f.logs.handled|] == f.logs.busy.value;
    }
  }

  /** The two workers alone can get a waiting transaction stored, unless it is stranded. */
  lemma {:induction false} WaitingCanBeStored(f: Fan, i: nat) returns (es: seq<Event>)
    requires Reachable(f) && i < |f.jobs| && f.jobs[i].phase == Waiting && !Stranded(f, i)
    ensures i in Run(f, es).stored
    decreases Load(f)
  {
    ReachableInv(f);
    if f.jobs[i].wg == 0 {
      es := [Store(i, true)];
      assert es[..0] == [] && Run(f, []) == f;
      assert Run(f, es) == Step(f, Store(i, true));
      assert Step(f, Store(i, true)).stored[|f.stored|] == i;
    } else {
      var e := WorkerCanAct(f, i);
      assert [e][..0] == [] && Run(f, []) == f;
      assert Run(f, [e]) == Step(f, e);
      ReachableRun(f, [e]);
      var rest := WaitingCanBeStored(Step(f, e), i);
      RunAppend(f, [e], rest);
      es := [e] + rest;
    }
  }

  lemma QueuedStays(w: Worker, work: Work, i: nat)
    ensures Of(w.queue, i) != [] ==> Of(Queued(w, work).queue, i) != []
  {
    OfAppend(w.queue, [work], i);
  }

  lemma SendKeepsStranded(f: Fan, c: nat, i: nat)
    requires c < |f.jobs| && Stranded(f, i)
    ensures Stranded(Dispatch(f, c, Send), i)
  {
    if Dispatch(f, c, Send) != f {
      var work := Work(c, ItemAt(f.jobs[c].trx, f.jobs[c].sent));
      SendChanges(f, c);
      QueuedStays(f.accounts, work, i);
      QueuedStays(f.logs, work, i);
    }
  }

  lemma StepKeepsStranded(f: Fan, e: Event, i: nat)
    requires Stranded(f, i)
    ensures Stranded(Step(f, e), i)
  {
    if e.Send? && f.current.Some? && f.current.value < |f.jobs| {
      SendKeepsStranded(f, f.current.value, i);
    }
  }

  /** A worker that has left an event in its queue has it open for ever. */
  lemma StrandedIsOpen(f: Fan, i: nat)
    requires Stranded(f, i)
    ensures Open(f.accounts, i) + Open(f.logs, i) > 0
  {
    QueueIsOpen(f.accounts, i);
    QueueIsOpen(f.logs, i);
  }

  lemma QueueIsOpen(w: Worker, i: nat)
    ensures Open(w, i) >= |Of(w.queue, i)|
  {
    if w.busy.Some? {
      OfAppend([w.busy.value], w.queue, i);
    }
  }

  lemma {:induction false} StrandedNeverStored(f: Fan, i: nat, more: seq<Event>)
    requires Reachable(f) && Stranded(f, i)
    ensures Stranded(Run(f, more), i) && i !in Run(f, more).stored
    decreases |more|
  {
    if more != [] {
      var init := more[..|more| - 1];
      StrandedNeverStored(f, i, init);
      StepKeepsStranded(Run(f, init), more[|more| - 1], i);
    }
    ReachableRun(f, more);
    ReachableInv(Run(f, more));
    StrandedIsOpen(Run(f, more), i);
    StoredIsClosed(Run(f, more), i);
  }

  lemma StoredIsClosed(f: Fan, i: nat)
    requires Inv(f)
    ensures i in f.stored ==> Open(f.accounts, i) + Open(f.logs, i) == 0
  {
    if i in f.stored {
      assert JobInv(f, i);
    }
  }

  /** A waiting transaction can still be stored exactly when no event of it was left behind
      by a worker that has ended. */
  lemma StoredExactlyUnlessStranded(f: Fan, i: nat)
    requires Reachable(f) && i < |f.jobs| && f.jobs[i].phase == Waiting
    ensures (exists es: seq<Event> :: i in Run(f, es).stored) <==> !Stranded(f, i)
  {
    if Stranded(f, i) {
      forall es: seq<Event>
        ensures i !in Run(f, es).stored
      {
        StrandedNeverStored(f, i, es);
      }
    } else {
      var es := WaitingCanBeStored(f, i);
    }
  }

  /** Before a stop nothing is stranded: every waiting transaction can be stored. */
  lemma NothingStrandedWhileRunning(f: Fan, i: nat)
    requires Reachable(f) && !f.stopped
    ensures !Stranded(f, i)
  {
    ReachableInv(f);
  }

  /** Before a stop nothing is cut either, and both workers are running. */
  lemma {:induction false} NothingCutBeforeStop(es: seq<Event>)
    ensures var f := Run(Init(), es);
            !f.stopped ==>
              && !f.accounts.ended && !f.logs.ended
              && forall i :: 0 <= i < |f.jobs| ==> f.jobs[i].phase != Cut
    decreases |es|
  {
    if es != [] {
      NothingCutBeforeStop(es[..|es| - 1]);
      StepCutsAfterStop(Run(Init(), es[..|es| - 1]), es[|es| - 1]);
    }
  }

  lemma StepCutsAfterStop(f: Fan, e: Event)
    ensures f.stopped ==> Step(f, e).stopped
    ensures !Step(f, e).stopped ==>
              && (Step(f, e).accounts.ended ==> f.accounts.ended) && (Step(f, e).logs.ended ==> f.logs.ended)
              && |f.jobs| <= |Step(f, e).jobs|
              && forall i :: 0 <= i < |Step(f, e).jobs| && Step(f, e).jobs[i].phase == Cut ==>
                   i < |f.jobs| && f.jobs[i].phase == Cut
  {
  }

  /** Nothing but a full queue holds up the dispatcher: 5000 transactions for the burn dispatcher, 1000
      accounts, or 5000 logs. */
  lemma SendsExactlyWhen(f: Fan, t: Trx)
    ensures Step(f, Begin(t)) != f <==> f.current.None? && |f.burns| < 5000
    ensures f.current.Some? && f.current.value < |f.jobs| ==>
              var j := f.jobs[f.current.value];
              Step(f, Send) != f <==>
              j.added && j.sent < Total(j.trx) &&
              if j.sent < Accounts(j.trx) then |f.accounts.queue| < 1000 else |f.logs.queue| < 5000
  {
    if f.current.Some? && f.current.value < |f.jobs| && Step(f, Send) != f {
      SendChanges(f, f.current.value);
    }
  }

  // ------------------------------------------------------ from start to store

  lemma RunFirst(f: Fan, e: Event, rest: seq<Event>)
    ensures Run(f, [e] + rest) == Run(Step(f, e), rest)
  {
    assert [e][..0] == [] && Run(f, []) == f;
    assert Run(f, [e]) == Step(f, e);
    RunAppend(f, [e], rest);
  }

  /** The transaction is being fanned out, and no worker has ended. */
  ghost predicate InProgress(f: Fan, i: nat) {
    f.current == Some(i) && i < |f.jobs| && !f.accounts.ended && !f.logs.ended
  }

  /** A worker that is running takes an event, or finishes the one it has. */
  function GoOn(w: Worker, takes: Event, finishes: Event): Event {
    if w.busy.Some? then finishes else takes
  }

  /** What the dispatcher does next for the transaction, or the worker whose queue is full. */
  function Onwards(f: Fan, i: nat): Event
    requires i < |f.jobs|
  {
    var j := f.jobs[i];
    if !j.added then
      if j.sent < Total(j.trx) then Add else SpawnWaiter
    else if j.sent < Accounts(j.trx) then
      if |f.accounts.queue| < ACCOUNT_QUEUE_CAPACITY then Send else GoOn(f.accounts, TakeAccount, FinishAccount)
    else
      if |f.logs.queue| < LOG_QUEUE_CAPACITY then Send else GoOn(f.logs, TakeLog, FinishLog)
  }

  lemma DispatcherGoesOn(f: Fan, i: nat)
    requires InProgress(f, i) && JobInv(f, i) && (Onwards(f, i).Add? || Onwards(f, i).Send?)
    ensures var f' := Step(f, Onwards(f, i));
            && InProgress(f', i) && f'.jobs[i].trx == f.jobs[i].trx
            && (|| f.jobs[i].sent < f'.jobs[i].sent
                || (f.jobs[i].sent == f'.jobs[i].sent && !f.jobs[i].added && f'.jobs[i].added))
  {
  }

  lemma AccountsGoOn(f: Fan, i: nat)
    requires IndexInv(f) && InProgress(f, i) && f.accounts.queue != []
    ensures var f' := Step(f, GoOn(f.accounts, TakeAccount, FinishAccount));
            && InProgress(f', i) && f'.jobs[i].(wg := f.jobs[i].wg) == f.jobs[i]
            && Load(f') < Load(f)
  {
    if f.accounts.busy.Some? {
      assert Sent(f.accounts)[|f.accounts.handled|] == f.accounts.busy.value;
    }
  }

  lemma LogsGoOn(f: Fan, i: nat)
    requires IndexInv(f) && InProgress(f, i) && f.logs.queue != []
    ensures var f' := Step(f, GoOn(f.logs, TakeLog, FinishLog));
            && InProgress(f', i) && f'.jobs[i].(wg := f.jobs[i].wg) == f.jobs[i]
            && Load(f') < Load(f)
  {
    if f.logs.busy.Some? {
      assert Sent(f.logs)[|f.logs.handled|] == f.logs.busy.value;
    }
  }

  lemma WorkersGoOn(f: Fan, i: nat)
    requires IndexInv(f) && InProgress(f, i) && f.jobs[i].added && !Onwards(f, i).Send?
    ensures var f' := Step(f, Onwards(f, i));
            && InProgress(f', i) && f'.jobs[i].(wg := f.jobs[i].wg) == f.jobs[i]
            && Load(f') < Load(f)
  {
    if f.jobs[i].sent < Accounts(f.jobs[i].trx) {
      AccountsGoOn(f, i);
    } else {
      LogsGoOn(f, i);
    }
  }

  /** While the workers run, a transaction that was begun can be fanned out, handled and stored. */
  lemma {:induction false} BegunCanBeStored(f: Fan, i: nat) returns (es: seq<Event>)
    requires Reachable(f) && InProgress(f, i)
    ensures i in Run(f, es).stored
    decreases Total(f.jobs[i].trx) - f.jobs[i].sent, if f.jobs[i].added then 0 else 1, Load(f)
  {
    ReachableInv(f);
    assert JobInv(f, i);
    var e := Onwards(f, i);
    var f' := Step(f, e);
    ReachableStep(f, e);
    var rest;
    if e.SpawnWaiter? {
      rest := WaitingCanBeStored(f', i);
    } else {
      ReachableInv(f');
      if e.Add? || e.Send? {
        DispatcherGoesOn(f, i);
      } else {
        WorkersGoOn(f, i);
      }
      assert JobInv(f', i);
      rest := BegunCanBeStored(f', i);
    }
    RunFirst(f, e, rest);
    es := [e] + rest;
  }

  lemma SenderIsAdded(t: Trx) returns (f: Fan)
    ensures Reachable(f)
    ensures f == Init().(jobs := [Job(t, Fanning, 0, true, 1)], current := Some(0), burns := [0])
  {
    assert Init() == Run(Init(), []);
    ReachableStep(Init(), Begin(t));
    ReachableStep(Step(Init(), Begin(t)), Add);
    f := Step(Step(Init(), Begin(t)), Add);
  }

  lemma SenderIsQueued(t: Trx) returns (f: Fan)
    ensures Reachable(f)
    ensures f == Init().(jobs := [Job(t, Fanning, 1, false, 1)], current := Some(0), burns := [0],
                         accounts := Queued(IDLE, Work(0, Account(t.sender, Wallet))))
  {
    var before := SenderIsAdded(t);
    ReachableStep(before, Send);
    f := Step(before, Send);
  }

  lemma StoppedWithSender(t: Trx) returns (f: Fan)
    requires Total(t) == 1
    ensures Reachable(f)
    ensures f == Init().(jobs := [Job(t, Waiting, 1, false, 1)], burns := [0], stopped := true,
                         accounts := IDLE.(queue := [Work(0, Account(t.sender, Wallet))], ended := true))
  {
    var fanning := SenderIsQueued(t);
    ReachableStep(fanning, SpawnWaiter);
    var waiting := Step(fanning, SpawnWaiter);
    ReachableStep(waiting, Stop);
    ReachableStep(waiting.(stopped := true), EndAccounts);
    f := Step(waiting.(stopped := true), EndAccounts);
  }

  /** A stop can strand a transaction: the event of its sender is queued when the worker ends. */
  lemma StopStrandsExample() returns (f: Fan)
    ensures Reachable(f) && |f.jobs| == 1 && f.jobs[0].phase == Waiting
    ensures forall more: seq<Event> :: 0 !in Run(f, more).stored
  {
    f := StoppedWithSender(Trx(1, 7, None, None, []));
    OfOne(Work(0, Account(7, Wallet)), 0);
    forall more: seq<Event>
      ensures 0 !in Run(f, more).stored
    {
      StrandedNeverStored(f, 0, more);
    }
  }

  // ---------------------------------------------------------- last seen block

  /** The event is the end of a waiter. */
  predicate Releases(f: Fan, e: Event) {
    && e.Store? && e.job < |f.jobs| && !Released(f.jobs[e.job])
    && e.job < |Step(f, e).jobs| && Released(Step(f, e).jobs[e.job])
  }

  lemma ObserverStep(f: Fan, e: Event)
    ensures Step(f, e).blkObserver == if Releases(f, e) then f.jobs[e.job].trx.blk else f.blkObserver
  {
  }

  /** The block of the transaction whose waiter ended last, or one before any did. */
  function LastReleased(es: seq<Event>): nat {
    if es == [] then 1
    else
      var f, e := Run(Init(), es[..|es| - 1]), es[|es| - 1];
      if Releases(f, e) then f.jobs[e.job].trx.blk else LastReleased(es[..|es| - 1])
  }

  /** That is the block observed, whether the transaction was stored or its write failed. */
  lemma {:induction false} ObserverFollows(es: seq<Event>)
    ensures Run(Init(), es).blkObserver == LastReleased(es)
    decreases |es|
  {
    if es != [] {
      ObserverFollows(es[..|es| - 1]);
      ObserverStep(Run(Init(), es[..|es| - 1]), es[|es| - 1]);
    }
  }
}
