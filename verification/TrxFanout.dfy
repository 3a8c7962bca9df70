/**
 Fan-out and fan-in of one transaction: the transaction dispatcher sends an event for every
 account and every log of a transaction, two workers handle them, and a waiter stores the
 transaction once its wait group is empty.  Any interleaving of the workers, and a stop at
 any point, is a sequence of events; an action that is not enabled leaves the state alone.
 Once stopped, a worker may end between two events, and leaves the rest in its queue.
 */
module TrxFanout {
  import opened Wrappers

  const ACCOUNT_QUEUE_CAPACITY: nat := 1000
  const LOG_QUEUE_CAPACITY: nat := 5000
  const BURN_QUEUE_CAPACITY: nat := 5000

  type Address = nat
  type LogRecord = nat

  /** A transaction: its block, its sender, its recipient and the contract it created, if any, and
      its logs. */
  datatype Trx = Trx(
    blk: nat,
    sender: Address,
    recipient: Option<Address>,
    contract: Option<Address>,
    logs: seq<LogRecord>)

  datatype AccountType = Wallet | Contract

  /** What a worker is told: an account that a transaction mentions, or a log of it. */
  datatype Item = Account(addr: Address, kind: AccountType) | Log(log: LogRecord)

  /** An event on the queue of a worker, with the transaction whose wait group it belongs to. */
  datatype Work = Work(job: nat, item: Item)

  /** A worker; `ended` says that it has returned. */
  datatype Worker = Worker(
    queue: seq<Work>,
    busy: Option<Work>,   // the event being handled
    ended: bool,
    handled: seq<Work>)   // history: the events handled

  /** Cut by a stop before all events were sent; failed when the write to the database did. */
  datatype Phase = Fanning | Waiting | Stored | Failed | Cut

  /** A transaction in work; `added` says that the counter was raised for an event that has
      not been sent yet. */
  datatype Job = Job(trx: Trx, phase: Phase, sent: nat, added: bool, wg: int)

  datatype Fan = Fan(
    jobs: seq<Job>,
    current: Option<nat>,  // the job the dispatcher is fanning out
    accounts: Worker,
    logs: Worker,
    stopped: bool,
    burns: seq<nat>,       // jobs queued for the burn dispatcher
    burned: seq<nat>,      // jobs it received, in that order
    stored: seq<nat>,      // jobs stored, in that order
    blkObserver: nat)

  datatype Event =
    | Stop
    | Begin(trx: Trx)
    | Refuse(trx: Trx)
    | Add
    | Send
    | Abandon
    | SpawnWaiter
    | TakeAccount
    | FinishAccount
    | TakeLog
    | FinishLog
    | EndAccounts
    | EndLogs
    | TakeBurn
    | Store(job: nat, writeOk: bool)

  /** The accounts a transaction mentions. */
  function Accounts(t: Trx): nat {
    1 + (if t.recipient.Some? then 1 else 0) + (if t.contract.Some? then 1 else 0)
  }

  function Total(t: Trx): nat {
    Accounts(t) + |t.logs|
  }

  /** What is sent for a transaction, one after the other: the sender, the recipient if any, the
      created contract if any, and the logs. */
  function ItemAt(t: Trx, k: nat): Item
    requires k < Total(t)
  {
    if k >= Accounts(t) then Log(t.logs[k - Accounts(t)])
    else if k == 0 then Account(t.sender, Wallet)
    else if k == 1 && t.recipient.Some? then Account(t.recipient.value, Wallet)
    else Account(t.contract.value, Contract)
  }

  const IDLE := Worker([], None, false, [])

  function Init(): Fan {
    Fan([], None, IDLE, IDLE, false, [], [], [], 1)
  }

  // ---------------------------------------------------------------- workers

  function Take(w: Worker): Worker {
    if w.ended || w.busy.Some? || w.queue == [] then w
    else w.(busy := Some(w.queue[0]), queue := w.queue[1..])
  }

  function Finish(w: Worker): Worker
    requires w.busy.Some?
  {
    w.(busy := None, handled := w.handled + [w.busy.value])
  }

  /** A worker that is told to stop may return, once it has finished what it is doing. */
  function End(w: Worker, stopped: bool): Worker {
    if !stopped || w.busy.Some? then w else w.(ended := true)
  }

  /** The signal of a worker to a wait group. */
  function Done(jobs: seq<Job>, i: nat): seq<Job>
    requires i < |jobs|
  {
    jobs[i := jobs[i].(wg := jobs[i].wg - 1)]
  }

  // ----------------------------------------------------------------- system

  function Step(f: Fan, e: Event): Fan {
    match e
    case Stop => f.(stopped := true)
    case Begin(t) =>
      if f.current.Some? || |f.burns| >= BURN_QUEUE_CAPACITY then f
      else f.(jobs := f.jobs + [Job(t, Fanning, 0, false, 0)],
              current := Some(|f.jobs|),
              burns := f.burns + [|f.jobs|])
    case Refuse(t) =>
      if f.current.Some? || !f.stopped then f
      else f.(jobs := f.jobs + [Job(t, Cut, 0, false, 0)])
    case TakeAccount => f.(accounts := Take(f.accounts))
    case TakeLog => f.(logs := Take(f.logs))
    case FinishAccount =>
      if f.accounts.busy.None? || f.accounts.busy.value.job >= |f.jobs| then f
      else f.(jobs := Done(f.jobs, f.accounts.busy.value.job), accounts := Finish(f.accounts))
    case FinishLog =>
      if f.logs.busy.None? || f.logs.busy.value.job >= |f.jobs| then f
      else f.(jobs := Done(f.jobs, f.logs.busy.value.job), logs := Finish(f.logs))
    case EndAccounts => f.(accounts := End(f.accounts, f.stopped))
    case EndLogs => f.(logs := End(f.logs, f.stopped))
    case TakeBurn =>
      if f.burns == [] then f
      else f.(burns := f.burns[1..], burned := f.burned + [f.burns[0]])
    case Store(i, writeOk) =>
      if i >= |f.jobs| || f.jobs[i].phase != Waiting || f.jobs[i].wg != 0 then f
      else f.(jobs := f.jobs[i := f.jobs[i].(phase := if writeOk then Stored else Failed)],
              stored := if writeOk then f.stored + [i] else f.stored,
              blkObserver := f.jobs[i].trx.blk)
    case _ =>
      if f.current.None? || f.current.value >= |f.jobs| then f
      else Dispatch(f, f.current.value, e)
  }

  /** What the dispatcher does next for the job it is fanning out. */
  function Dispatch(f: Fan, i: nat, e: Event): Fan
    requires i < |f.jobs|
  {
    var j := f.jobs[i];
    match e
    case Add =>
      if j.added || j.sent >= Total(j.trx) then f
      else f.(jobs := f.jobs[i := j.(added := true, wg := j.wg + 1)])
    case Send =>
      if !j.added || j.sent >= Total(j.trx) then f
      else
        var w, f' := Work(i, ItemAt(j.trx, j.sent)), f.(jobs := f.jobs[i := j.(added := false, sent := j.sent + 1)]);
        if j.sent < Accounts(j.trx) then
          if |f.accounts.queue| < ACCOUNT_QUEUE_CAPACITY
          then f'.(accounts := f.accounts.(queue := f.accounts.queue + [w])) else f
        else
          if |f.logs.queue| < LOG_QUEUE_CAPACITY
          then f'.(logs := f.logs.(queue := f.logs.queue + [w])) else f
    case Abandon =>
      if !j.added || !f.stopped then f
      else f.(jobs := f.jobs[i := j.(phase := Cut)], current := None)
    case SpawnWaiter =>
      if j.added || j.sent < Total(j.trx) then f
      else f.(jobs := f.jobs[i := j.(phase := Waiting)], current := None)
    case _ => f
  }

  function Run(f: Fan, es: seq<Event>): Fan
    decreases |es|
  {
    if es == [] then f else Step(Run(f, es[..|es| - 1]), es[|es| - 1])
  }

  // ------------------------------------------------------------- properties

  /** What belongs to a job, in order. */
  function Of(works: seq<Work>, i: nat): seq<Item> {
    if works == [] then []
    else
      var before, last := Of(works[..|works| - 1], i), works[|works| - 1];
      if last.job == i then before + [last.item] else before
  }

  /** The events sent to a worker that it has not handled yet, oldest first. */
  function Unhandled(w: Worker): seq<Work> {
    if w.busy.Some? then [w.busy.value] + w.queue else w.queue
  }

  /** All events ever sent to a worker. */
  function Sent(w: Worker): seq<Work> {
    w.handled + Unhandled(w)
  }

  /** Events of a job that were sent to the worker and not handled yet. */
  function Open(w: Worker, i: nat): nat {
    |Of(Unhandled(w), i)|
  }

  /** The waiter is done with the job, whether the write succeeded or not. */
  predicate Released(j: Job) {
    j.phase == Stored || j.phase == Failed
  }

  ghost predicate PhaseInv(j: Job, isCurrent: bool, stored: nat) {
    && (j.phase == Fanning <==> isCurrent)
    && (j.added ==> j.sent < Total(j.trx))
    && (j.phase == Waiting || Released(j) ==> j.sent == Total(j.trx) && !j.added)
    && (j.phase == Cut ==> j.added || j.sent == 0)
    && (Released(j) ==> j.wg == 0)
    && stored == (if j.phase == Stored then 1 else 0)
  }

  ghost predicate JobInv(f: Fan, i: nat)
    requires i < |f.jobs|
  {
    var j := f.jobs[i];
    && j.sent <= Total(j.trx)
    && j.wg == Open(f.accounts, i) + Open(f.logs, i) + (if j.added then 1 else 0)
    && PhaseInv(j, f.current == Some(i), multiset(f.stored)[i])
  }

  ghost predicate AllBelow(works: seq<Work>, bound: nat) {
    forall k :: 0 <= k < |works| ==> works[k].job < bound
  }

  /** Queues and workers hold events of jobs that exist, and a worker ends only after a stop. */
  ghost predicate IndexInv(f: Fan) {
    && (f.current.Some? ==> f.current.value < |f.jobs|)
    && AllBelow(Sent(f.accounts), |f.jobs|) && AllBelow(Sent(f.logs), |f.jobs|)
    && (forall i :: i in f.stored ==> i < |f.jobs|)
    && (f.accounts.ended ==> f.stopped && f.accounts.busy.None?)
    && (f.logs.ended ==> f.stopped && f.logs.busy.None?)
  }

  ghost predicate Inv(f: Fan) {
    IndexInv(f) && forall i :: 0 <= i < |f.jobs| ==> JobInv(f, i)
  }

  /** A transaction refused before its fan-out began. */
  predicate Refused(j: Job) {
    j.phase == Cut && !j.added
  }

  /** The burn dispatcher is sent every transaction that was not refused, once and in order. */
  ghost predicate BurnInv(f: Fan) {
    var sent := f.burned + f.burns;
    && (forall i: nat :: i in sent <==> i < |f.jobs| && !Refused(f.jobs[i]))
    && (forall a, b :: 0 <= a < b < |sent| ==> sent[a] < sent[b])
  }

  // ------------------------------------------------------- what workers keep

  lemma {:induction false} OfAppend(a: seq<Work>, b: seq<Work>, i: nat)
    ensures Of(a + b, i) == Of(a, i) + Of(b, i)
  {
    if b == [] {
      assert a + b == a;
    } else {
      OfAppend(a, b[..|b| - 1], i);
      assert (a + b)[..|a + b| - 1] == a + b[..|b| - 1];
    }
  }

  lemma OfOne(w: Work, i: nat)
    ensures Of([w], i) == if w.job == i then [w.item] else []
  {
    assert [w][..0] == [];
  }

  /** Taking an event changes neither what was sent to the worker nor what it has left to do. */
  lemma TakeKeeps(w: Worker)
    ensures Sent(Take(w)) == Sent(w) && Unhandled(Take(w)) == Unhandled(w)
    ensures Take(w).handled == w.handled && Take(w).ended == w.ended
  {
    if Take(w) != w {
      assert w.queue == [w.queue[0]] + w.queue[1..];
    }
  }

  lemma FinishSent(w: Worker)
    requires w.busy.Some?
    ensures Sent(Finish(w)) == Sent(w)
  {
    assert Sent(Finish(w)) == w.handled + ([w.busy.value] + w.queue);
  }

  lemma FinishKeeps(w: Worker, i: nat)
    requires w.busy.Some?
    ensures Open(w, i) == Open(Finish(w), i) + if w.busy.value.job == i then 1 else 0
  {
    OfAppend([w.busy.value], w.queue, i);
    OfOne(w.busy.value, i);
  }

  lemma QueuedSent(w: Worker, work: Work)
    ensures Sent(Queued(w, work)) == Sent(w) + [work]
    ensures Unhandled(Queued(w, work)) == Unhandled(w) + [work]
  {
    assert Unhandled(Queued(w, work)) == Unhandled(w) + [work];
  }

  lemma QueuedOpen(w: Worker, work: Work, i: nat)
    ensures Open(Queued(w, work), i) == Open(w, i) + if work.job == i then 1 else 0
  {
    QueuedSent(w, work);
    OfAppend(Unhandled(w), [work], i);
    OfOne(work, i);
  }

  lemma {:induction false} NoneOf(works: seq<Work>, bound: nat, i: nat)
    requires AllBelow(works, bound) && bound <= i
    ensures Of(works, i) == []
  {
    if works != [] {
      NoneOf(works[..|works| - 1], bound, i);
    }
  }

  lemma NoneOpen(w: Worker, i: nat)
    requires AllBelow(Sent(w), i)
    ensures Open(w, i) == 0
  {
    NoneOf(Sent(w), i, i);
    HandledAndOpen(w, i);
  }

  /** What was handled of a job, and what is left, is what was sent. */
  lemma HandledAndOpen(w: Worker, i: nat)
    ensures Of(Sent(w), i) == Of(w.handled, i) + Of(Unhandled(w), i)
  {
    OfAppend(w.handled, Unhandled(w), i);
  }

  // ------------------------------------------------------------- invariance

  /** A job is not concerned by a step that changes neither it nor what is open for it. */
  lemma OtherJobInv(f: Fan, f': Fan, i: nat)
    requires i < |f.jobs| && i < |f'.jobs| && JobInv(f, i) && f'.jobs[i] == f.jobs[i]
    requires Open(f'.accounts, i) == Open(f.accounts, i) && Open(f'.logs, i) == Open(f.logs, i)
    requires multiset(f'.stored)[i] == multiset(f.stored)[i]
    requires f'.current == Some(i) <==> f.current == Some(i)
    ensures JobInv(f', i)
  {
  }

  lemma AdmittedJob(f: Fan, e: Event)
    requires IndexInv(f) && (e.Begin? || e.Refuse?) && Step(f, e) != f
    ensures JobInv(Step(f, e), |f.jobs|)
  {
    var i := |f.jobs|;
    assert i !in f.stored;
    NoneOpen(f.accounts, i);
    NoneOpen(f.logs, i);
  }

  lemma AdmitInv(f: Fan, e: Event)
    requires Inv(f) && (e.Begin? || e.Refuse?)
    ensures Inv(Step(f, e))
  {
    var f' := Step(f, e);
    if f' != f {
      forall i | 0 <= i < |f'.jobs|
        ensures JobInv(f', i)
      {
        if i < |f.jobs| {
          OtherJobInv(f, f', i);
        } else {
          AdmittedJob(f, e);
        }
      }
    }
  }

  /** A step of the workers that handles nothing, of the burn dispatcher, or of the stop. */
  lemma NoJobInv(f: Fan, e: Event)
    requires Inv(f)
    requires e.Stop? || e.EndAccounts? || e.EndLogs? || e.TakeBurn? || e.TakeAccount? || e.TakeLog?
    ensures Inv(Step(f, e))
  {
    var f' := Step(f, e);
    TakeKeeps(f.accounts);
    TakeKeeps(f.logs);
    assert Sent(f'.accounts) == Sent(f.accounts) && Unhandled(f'.accounts) == Unhandled(f.accounts);
    assert Sent(f'.logs) == Sent(f.logs) && Unhandled(f'.logs) == Unhandled(f.logs);
    forall i | 0 <= i < |f'.jobs|
      ensures JobInv(f', i)
    {
      OtherJobInv(f, f', i);
    }
  }

  /** One event of the job less is open, and its counter is one lower; or neither. */
  lemma FinishedJob(f: Fan, f': Fan, i: nat, mine: nat)
    requires i < |f.jobs| && i < |f'.jobs| && JobInv(f, i)
    requires f'.jobs[i] == f.jobs[i].(wg := f.jobs[i].wg - mine)
    requires Open(f.accounts, i) + Open(f.logs, i) == Open(f'.accounts, i) + Open(f'.logs, i) + mine
    requires f'.stored == f.stored && f'.current == f.current
    ensures JobInv(f', i)
  {
  }

  lemma FinishAccountInv(f: Fan)
    requires Inv(f)
    ensures Inv(Step(f, FinishAccount))
  {
    var f' := Step(f, FinishAccount);
    if f.accounts.busy.Some? {
      FinishSent(f.accounts);
      forall i | 0 <= i < |f.jobs|
        ensures JobInv(f', i)
      {
        FinishKeeps(f.accounts, i);
        FinishedJob(f, f', i, if f.accounts.busy.value.job == i then 1 else 0);
      }
    }
  }

  lemma FinishLogInv(f: Fan)
    requires Inv(f)
    ensures Inv(Step(f, FinishLog))
  {
    var f' := Step(f, FinishLog);
    if f.logs.busy.Some? {
      FinishSent(f.logs);
      forall i | 0 <= i < |f.jobs|
        ensures JobInv(f', i)
      {
        FinishKeeps(f.logs, i);
        FinishedJob(f, f', i, if f.logs.busy.value.job == i then 1 else 0);
      }
    }
  }

  lemma OneMore(s: seq<nat>, c: nat, i: nat)
    ensures multiset(s + [c])[i] == multiset(s)[i] + if c == i then 1 else 0
  {
  }

  lemma StoreJob(f: Fan, job: nat, writeOk: bool)
    requires job < |f.jobs| && JobInv(f, job)
    ensures JobInv(Step(f, Store(job, writeOk)), job)
  {
    OneMore(f.stored, job, job);
  }

  lemma StoreOtherJob(f: Fan, job: nat, writeOk: bool, i: nat)
    requires i < |f.jobs| && i != job && JobInv(f, i)
    ensures JobInv(Step(f, Store(job, writeOk)), i)
  {
    OneMore(f.stored, job, i);
    OtherJobInv(f, Step(f, Store(job, writeOk)), i);
  }

  lemma StoreInv(f: Fan, job: nat, writeOk: bool)
    requires Inv(f)
    ensures Inv(Step(f, Store(job, writeOk)))
  {
    forall i | 0 <= i < |f.jobs|
      ensures JobInv(Step(f, Store(job, writeOk)), i)
    {
      if i == job {
        StoreJob(f, job, writeOk);
      } else {
        StoreOtherJob(f, job, writeOk, i);
      }
    }
  }

  /** The worker that gets an event, with the event on its queue. */
  function Queued(w: Worker, work: Work): Worker {
    w.(queue := w.queue + [work])
  }

  /** What sending an event changes: the queue of one worker, and the job it is sent for. */
  lemma SendChanges(f: Fan, c: nat)
    requires c < |f.jobs| && Dispatch(f, c, Send) != f
    ensures var j := f.jobs[c];
            && j.added && j.sent < Total(j.trx)
            && var (j', work) := (j.(added := false, sent := j.sent + 1), Work(c, ItemAt(j.trx, j.sent)));
               Dispatch(f, c, Send) ==
               if j.sent < Accounts(j.trx)
               then f.(jobs := f.jobs[c := j'], accounts := Queued(f.accounts, work))
               else f.(jobs := f.jobs[c := j'], logs := Queued(f.logs, work))
  {
  }

  /** The job itself has one addition less and one open event more; others have neither. */
  lemma SentJob(f: Fan, f': Fan, i: nat, mine: nat)
    requires i < |f.jobs| && i < |f'.jobs| && JobInv(f, i) && mine <= 1
    requires mine == 0 ==> f'.jobs[i] == f.jobs[i]
    requires mine == 1 ==> f.current == Some(i) && f.jobs[i].added
    requires mine == 1 ==> f'.jobs[i] == f.jobs[i].(added := false, sent := f.jobs[i].sent + 1)
    requires Open(f'.accounts, i) + Open(f'.logs, i) == Open(f.accounts, i) + Open(f.logs, i) + mine
    requires f'.stored == f.stored && f'.current == f.current
    ensures JobInv(f', i)
  {
  }

  lemma SendJob(f: Fan, c: nat, i: nat)
    requires c < |f.jobs| && f.current == Some(c) && i < |f.jobs| && JobInv(f, i) && Dispatch(f, c, Send) != f
    ensures JobInv(Dispatch(f, c, Send), i)
  {
    var work := Work(c, ItemAt(f.jobs[c].trx, f.jobs[c].sent));
    SendChanges(f, c);
    QueuedOpen(f.accounts, work, i);
    QueuedOpen(f.logs, work, i);
    SentJob(f, Dispatch(f, c, Send), i, if i == c then 1 else 0);
  }

  lemma SendIndexInv(f: Fan, c: nat)
    requires IndexInv(f) && c < |f.jobs| && Dispatch(f, c, Send) != f
    ensures IndexInv(Dispatch(f, c, Send))
  {
    SendChanges(f, c);
    var work := Work(c, ItemAt(f.jobs[c].trx, f.jobs[c].sent));
    QueuedSent(f.accounts, work);
    QueuedSent(f.logs, work);
  }

  lemma SendInv(f: Fan)
    requires Inv(f) && f.current.Some?
    ensures Inv(Dispatch(f, f.current.value, Send))
  {
    var c := f.current.value;
    var f' := Dispatch(f, c, Send);
    if f' != f {
      SendIndexInv(f, c);
      forall i | 0 <= i < |f'.jobs|
        ensures JobInv(f', i)
      {
        SendChanges(f, c);
        SendJob(f, c, i);
      }
    }
  }

  lemma CounterOrPhaseJob(f: Fan, e: Event, c: nat)
    requires c < |f.jobs| && f.current == Some(c) && JobInv(f, c)
    requires e.Add? || e.Abandon? || e.SpawnWaiter?
    ensures JobInv(Dispatch(f, c, e), c)
  {
    var f' := Dispatch(f, c, e);
    assert f'.accounts == f.accounts && f'.logs == f.logs && f'.stored == f.stored;
  }

  lemma CounterOrPhaseOtherJob(f: Fan, e: Event, c: nat, i: nat)
    requires c < |f.jobs| && f.current == Some(c) && i < |f.jobs| && i != c && JobInv(f, i)
    requires e.Add? || e.Abandon? || e.SpawnWaiter?
    ensures JobInv(Dispatch(f, c, e), i)
  {
    var f' := Dispatch(f, c, e);
    assert f'.accounts == f.accounts && f'.logs == f.logs && f'.stored == f.stored;
    OtherJobInv(f, f', i);
  }

  lemma CounterOrPhaseInv(f: Fan, e: Event)
    requires Inv(f) && f.current.Some?
    requires e.Add? || e.Abandon? || e.SpawnWaiter?
    ensures Inv(Dispatch(f, f.current.value, e))
  {
    forall i | 0 <= i < |f.jobs|
      ensures JobInv(Dispatch(f, f.current.value, e), i)
    {
      if i == f.current.value {
        CounterOrPhaseJob(f, e, i);
      } else {
        CounterOrPhaseOtherJob(f, e, f.current.value, i);
      }
    }
  }

  lemma DispatchInv(f: Fan, e: Event)
    requires Inv(f) && (e.Add? || e.Send? || e.Abandon? || e.SpawnWaiter?)
    ensures Inv(Step(f, e))
  {
    if f.current.Some? {
      if e.Send? {
        SendInv(f);
      } else {
        CounterOrPhaseInv(f, e);
      }
    }
  }

  lemma StepInv(f: Fan, e: Event)
    requires Inv(f)
    ensures Inv(Step(f, e))
  {
    match e
    case Begin(_) => AdmitInv(f, e);
    case Refuse(_) => AdmitInv(f, e);
    case FinishAccount => FinishAccountInv(f);
    case FinishLog => FinishLogInv(f);
    case Store(job, writeOk) => StoreInv(f, job, writeOk);
    case Add => DispatchInv(f, e);
    case Send => DispatchInv(f, e);
    case Abandon => DispatchInv(f, e);
    case SpawnWaiter => DispatchInv(f, e);
    case _ => NoJobInv(f, e);
  }

  // -------------------------------------------------------- burn dispatcher

  lemma RefusedStays(f: Fan, e: Event, i: nat)
    requires i < |f.jobs| && JobInv(f, i)
    ensures i < |Step(f, e).jobs| && Refused(Step(f, e).jobs[i]) == Refused(f.jobs[i])
  {
    match e
    case Add => RefusedIsNotCurrent(f, e, i);
    case Send => RefusedIsNotCurrent(f, e, i);
    case Abandon => RefusedIsNotCurrent(f, e, i);
    case SpawnWaiter => RefusedIsNotCurrent(f, e, i);
    case _ =>
  }

  lemma RefusedIsNotCurrent(f: Fan, e: Event, i: nat)
    requires i < |f.jobs| && JobInv(f, i) && (e.Add? || e.Send? || e.Abandon? || e.SpawnWaiter?)
    ensures i < |Step(f, e).jobs| && Refused(Step(f, e).jobs[i]) == Refused(f.jobs[i])
  {
  }

  /** No step but a refusal changes which transactions were refused. */
  lemma RefusalIsFinal(f: Fan, e: Event)
    requires Inv(f)
    ensures |Step(f, e).jobs| >= |f.jobs|
    ensures |Step(f, e).jobs| > |f.jobs| ==> e.Begin? || e.Refuse?
    ensures forall i :: 0 <= i < |f.jobs| ==> Refused(Step(f, e).jobs[i]) == Refused(f.jobs[i])
  {
    forall i | 0 <= i < |f.jobs|
      ensures Refused(Step(f, e).jobs[i]) == Refused(f.jobs[i])
    {
      RefusedStays(f, e, i);
    }
  }

  lemma BurnStep(f: Fan, e: Event)
    ensures Step(f, e).burned + Step(f, e).burns ==
            if e.Begin? && Step(f, e) != f then f.burned + f.burns + [|f.jobs|] else f.burned + f.burns
  {
  }

  lemma StepBurnInv(f: Fan, e: Event)
    requires Inv(f) && BurnInv(f)
    ensures BurnInv(Step(f, e))
  {
    var f' := Step(f, e);
    var sent, sent' := f.burned + f.burns, f'.burned + f'.burns;
    RefusalIsFinal(f, e);
    BurnStep(f, e);
    forall i: nat
      ensures i in sent' <==> i < |f'.jobs| && !Refused(f'.jobs[i])
    {
      assert i in sent <==> i < |f.jobs| && !Refused(f.jobs[i]);
    }
    assert forall a :: 0 <= a < |sent| ==> sent[a] in sent;
  }
}
