/** Which events the two workers are sent for a transaction, and in which order. */
module TrxFanoutOrder {
  import opened Wrappers
  import opened TrxFanout
  import opened TrxFanoutSafety

  /** The items are those sent for the transaction from the k-th on. */
  ghost predicate AreItems(items: seq<Item>, t: Trx, k: nat) {
    k + |items| <= Total(t) && forall n :: 0 <= n < |items| ==> items[n] == ItemAt(t, k + n)
  }

  /** Each worker was sent its part of what the dispatcher has sent for the job, in order. */
  ghost predicate InOrder(j: Job, accounts: seq<Item>, logs: seq<Item>) {
    && |accounts| == (if j.sent < Accounts(j.trx) then j.sent else Accounts(j.trx))
    && |accounts| + |logs| == j.sent
    && AreItems(accounts, j.trx, 0)
    && AreItems(logs, j.trx, Accounts(j.trx))
  }

  ghost predicate SentInOrder(f: Fan, i: nat)
    requires i < |f.jobs|
  {
    InOrder(f.jobs[i], Of(Sent(f.accounts), i), Of(Sent(f.logs), i))
  }

  ghost predicate OrderInv(f: Fan) {
    && AllBelow(Sent(f.accounts), |f.jobs|) && AllBelow(Sent(f.logs), |f.jobs|)
    && forall i :: 0 <= i < |f.jobs| ==> SentInOrder(f, i)
  }

  lemma SendInOrder(j: Job, accounts: seq<Item>, logs: seq<Item>)
    requires InOrder(j, accounts, logs) && j.sent < Total(j.trx)
    ensures var (j', more) := (j.(added := false, sent := j.sent + 1), [ItemAt(j.trx, j.sent)]);
            if j.sent < Accounts(j.trx) then InOrder(j', accounts + more, logs)
            else InOrder(j', accounts, logs + more)
  {
  }

  /** Nothing is sent, and no job goes on to its next event. */
  lemma NothingSent(f: Fan, f': Fan)
    requires OrderInv(f) && |f.jobs| == |f'.jobs|
    requires Sent(f'.accounts) == Sent(f.accounts) && Sent(f'.logs) == Sent(f.logs)
    requires forall i :: 0 <= i < |f.jobs| ==> f'.jobs[i].trx == f.jobs[i].trx && f'.jobs[i].sent == f.jobs[i].sent
    ensures OrderInv(f')
  {
    forall i | 0 <= i < |f.jobs|
      ensures SentInOrder(f', i)
    {
      SameOrder(f, f', i);
    }
  }

  lemma AdmitOrder(f: Fan, e: Event)
    requires OrderInv(f) && (e.Begin? || e.Refuse?)
    ensures OrderInv(Step(f, e))
  {
    var f' := Step(f, e);
    if f' != f {
      NoneOf(Sent(f.accounts), |f.jobs|, |f.jobs|);
      NoneOf(Sent(f.logs), |f.jobs|, |f.jobs|);
      forall i | 0 <= i < |f'.jobs|
        ensures SentInOrder(f', i)
      {
        assert i < |f.jobs| ==> SentInOrder(f, i);
      }
    }
  }

  /** The orders of a job whose events and whose position are as they were. */
  lemma SameOrder(f: Fan, f': Fan, i: nat)
    requires i < |f.jobs| && i < |f'.jobs| && f'.jobs[i].trx == f.jobs[i].trx && f'.jobs[i].sent == f.jobs[i].sent
    requires Of(Sent(f'.accounts), i) == Of(Sent(f.accounts), i) && Of(Sent(f'.logs), i) == Of(Sent(f.logs), i)
    requires SentInOrder(f, i)
    ensures SentInOrder(f', i)
  {
  }

  /** The event sent is the next one of its transaction. */
  lemma SendOrderOf(f: Fan, c: nat)
    requires c < |f.jobs| && Dispatch(f, c, Send) != f && SentInOrder(f, c)
    ensures c < |Dispatch(f, c, Send).jobs| && SentInOrder(Dispatch(f, c, Send), c)
  {
    var j := f.jobs[c];
    SendChanges(f, c);
    QueuedOf(f.accounts, Work(c, ItemAt(j.trx, j.sent)), c);
    QueuedOf(f.logs, Work(c, ItemAt(j.trx, j.sent)), c);
    SendInOrder(j, Of(Sent(f.accounts), c), Of(Sent(f.logs), c));
  }

  lemma SendOrderOfOther(f: Fan, c: nat, i: nat)
    requires c < |f.jobs| && i < |f.jobs| && i != c && Dispatch(f, c, Send) != f && SentInOrder(f, i)
    ensures i < |Dispatch(f, c, Send).jobs| && SentInOrder(Dispatch(f, c, Send), i)
  {
    var j := f.jobs[c];
    SendChanges(f, c);
    QueuedOf(f.accounts, Work(c, ItemAt(j.trx, j.sent)), i);
    QueuedOf(f.logs, Work(c, ItemAt(j.trx, j.sent)), i);
    SameOrder(f, Dispatch(f, c, Send), i);
  }

  lemma QueuedOf(w: Worker, work: Work, i: nat)
    ensures Of(Sent(Queued(w, work)), i) == if work.job == i then Of(Sent(w), i) + [work.item] else Of(Sent(w), i)
  {
    QueuedSent(w, work);
    OfAppend(Sent(w), [work], i);
    OfOne(work, i);
  }

  lemma SendOrder(f: Fan, c: nat)
    requires OrderInv(f) && c < |f.jobs|
    ensures OrderInv(Dispatch(f, c, Send))
  {
    var f' := Dispatch(f, c, Send);
    if f' != f {
      SendBelow(f, c);
      forall i | 0 <= i < |f'.jobs|
        ensures SentInOrder(f', i)
      {
        if i == c {
          SendOrderOf(f, c);
        } else {
          SendOrderOfOther(f, c, i);
        }
      }
    }
  }

  lemma SendBelow(f: Fan, c: nat)
    requires AllBelow(Sent(f.accounts), |f.jobs|) && AllBelow(Sent(f.logs), |f.jobs|)
    requires c < |f.jobs| && Dispatch(f, c, Send) != f
    ensures var f' := Dispatch(f, c, Send);
            |f'.jobs| == |f.jobs| && AllBelow(Sent(f'.accounts), |f.jobs|) && AllBelow(Sent(f'.logs), |f.jobs|)
  {
    var work := Work(c, ItemAt(f.jobs[c].trx, f.jobs[c].sent));
    SendChanges(f, c);
    QueuedSent(f.accounts, work);
    QueuedSent(f.logs, work);
  }

  lemma WorkersKeepSent(f: Fan, e: Event)
    requires !(e.Begin? || e.Refuse? || e.Send?)
    ensures Sent(Step(f, e).accounts) == Sent(f.accounts) && Sent(Step(f, e).logs) == Sent(f.logs)
  {
    TakeKeeps(f.accounts);
    TakeKeeps(f.logs);
    if f.accounts.busy.Some? {
      FinishSent(f.accounts);
    }
    if f.logs.busy.Some? {
      FinishSent(f.logs);
    }
  }

  lemma JobsKeepSent(f: Fan, e: Event)
    requires !(e.Begin? || e.Refuse? || e.Send?)
    ensures |Step(f, e).jobs| == |f.jobs|
    ensures forall i :: 0 <= i < |f.jobs| ==>
              Step(f, e).jobs[i].trx == f.jobs[i].trx && Step(f, e).jobs[i].sent == f.jobs[i].sent
  {
  }

  lemma StepOrder(f: Fan, e: Event)
    requires OrderInv(f)
    ensures OrderInv(Step(f, e))
  {
    if e.Begin? || e.Refuse? {
      AdmitOrder(f, e);
    } else if e.Send? {
      if f.current.Some? && f.current.value < |f.jobs| {
        SendOrder(f, f.current.value);
      }
    } else {
      WorkersKeepSent(f, e);
      JobsKeepSent(f, e);
      NothingSent(f, Step(f, e));
    }
  }

  lemma {:induction false} RunOrder(es: seq<Event>)
    ensures OrderInv(Run(Init(), es))
    decreases |es|
  {
    if es != [] {
      RunOrder(es[..|es| - 1]);
      StepOrder(Run(Init(), es[..|es| - 1]), es[|es| - 1]);
    }
  }

  /** In every reachable state the workers were sent, for each transaction, the first of its accounts
      and then of its logs, in order and once each. */
  lemma EventsAreSentInOrder(f: Fan, i: nat)
    requires Reachable(f) && i < |f.jobs|
    ensures SentInOrder(f, i)
  {
    var es: seq<Event> :| f == Run(Init(), es);
    RunOrder(es);
  }

  // ---------------------------------------------------------- what is handled

  /** The sender, the recipient if there is one, and the contract that was created if there is one;
      and all logs; each once and in order. */
  ghost predicate Complete(t: Trx, accounts: seq<Item>, logs: seq<Item>) {
    && accounts ==
       [Account(t.sender, Wallet)]
       + (match t.recipient case None => [] case Some(r) => [Account(r, Wallet)])
       + (match t.contract case None => [] case Some(c) => [Account(c, Contract)])
    && |logs| == |t.logs| && forall k :: 0 <= k < |logs| ==> logs[k] == Log(t.logs[k])
  }

  /** That is what the two workers have handled of the transaction. */
  ghost predicate AllHandled(f: Fan, i: nat)
    requires i < |f.jobs|
  {
    Complete(f.jobs[i].trx, Of(f.accounts.handled, i), Of(f.logs.handled, i))
  }

  lemma AllInOrderIsComplete(j: Job, accounts: seq<Item>, logs: seq<Item>)
    requires InOrder(j, accounts, logs) && j.sent == Total(j.trx)
    ensures Complete(j.trx, accounts, logs)
  {
    assert forall k :: 0 <= k < |logs| ==> logs[k] == ItemAt(j.trx, Accounts(j.trx) + k);
  }

  lemma CompleteIsAll(j: Job, accounts: seq<Item>, logs: seq<Item>, openAccounts: seq<Item>, openLogs: seq<Item>)
    requires InOrder(j, accounts + openAccounts, logs + openLogs) && Complete(j.trx, accounts, logs)
    ensures j.sent == Total(j.trx) && openAccounts == [] && openLogs == []
  {
  }

  /** All events of a transaction are handled exactly when all were sent and none is open. */
  lemma HandledExactlyWhen(f: Fan, i: nat)
    requires Reachable(f) && i < |f.jobs|
    ensures AllHandled(f, i) <==>
            f.jobs[i].sent == Total(f.jobs[i].trx) && Open(f.accounts, i) == 0 && Open(f.logs, i) == 0
  {
    var accounts, logs := Of(f.accounts.handled, i), Of(f.logs.handled, i);
    EventsAreSentInOrder(f, i);
    HandledAndOpen(f.accounts, i);
    HandledAndOpen(f.logs, i);
    if AllHandled(f, i) {
      CompleteIsAll(f.jobs[i], accounts, logs, Of(Unhandled(f.accounts), i), Of(Unhandled(f.logs), i));
    } else if f.jobs[i].sent == Total(f.jobs[i].trx) && Open(f.accounts, i) == 0 && Open(f.logs, i) == 0 {
      assert accounts + [] == accounts && logs + [] == logs;
      AllInOrderIsComplete(f.jobs[i], accounts, logs);
    }
  }

  /** A stored transaction was stored once, after all of its events had been handled. */
  lemma StoredAfterAllHandled(f: Fan, i: nat)
    requires Reachable(f) && i in f.stored
    ensures i < |f.jobs| && multiset(f.stored)[i] == 1
    ensures AllHandled(f, i)
    ensures f.jobs[i].wg == 0 && Open(f.accounts, i) == 0 && Open(f.logs, i) == 0
  {
    ReachableInv(f);
    assert JobInv(f, i);
    HandledExactlyWhen(f, i);
  }

  /** A waiter is released exactly when every event of its transaction has been handled, and
      its transaction is stored if the write succeeds. */
  lemma WaiterReleasedWhenHandled(f: Fan, i: nat, writeOk: bool)
    requires Reachable(f) && i < |f.jobs| && f.jobs[i].phase == Waiting
    ensures var f' := Step(f, Store(i, writeOk));
            && (Released(f'.jobs[i]) <==> AllHandled(f, i))
            && (i in f'.stored <==> Released(f'.jobs[i]) && writeOk)
  {
    ReachableInv(f);
    assert JobInv(f, i);
    HandledExactlyWhen(f, i);
  }
}
