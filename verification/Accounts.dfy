/**
 The register of known accounts: a database of rows behind a cache of known addresses, and
 the events that the account dispatcher feeds it.  The cache may forget anything at any
 time, and every call to the database may fail.
 */
module Accounts {
  type Address = nat

  datatype Row = Row(lastActivity: nat, counter: nat)

  datatype State = State(
    cache: set<Address>,
    rows: map<Address, Row>,
    inserted: seq<Address>)  // history: the rows ever inserted

  /** An account event says how the calls it leads to end: the analysis of the contract that
      its transaction creates, if any, the look-up of the row, and the write. */
  datatype Event =
    | Evict(addr: Address)
    | Process(addr: Address, ts: nat, contractOk: bool, lookupOk: bool, writeOk: bool)

  function Init(): State {
    State({}, map[], [])
  }

  function AccountIsKnown(s: State, addr: Address, lookupOk: bool): (State, bool) {
    if addr in s.cache then (s, true)
    else if lookupOk && addr in s.rows then (s.(cache := s.cache + {addr}), true)
    else (s, false)
  }

  /** An update of a row that does not exist matches nothing, which is no error. */
  function AccountMarkActivity(s: State, addr: Address, ts: nat, writeOk: bool): (State, bool) {
    if writeOk && addr in s.rows then
      (s.(rows := s.rows[addr := Row(ts, s.rows[addr].counter + 1)]), true)
    else
      (s, writeOk)
  }

  /** A row is inserted once; its key is unique. */
  function AddAccount(s: State, addr: Address, row: Row, writeOk: bool): (State, bool) {
    if writeOk && addr !in s.rows then
      (s.(rows := s.rows[addr := row], inserted := s.inserted + [addr]), true)
    else
      (s, false)
  }

  function StoreAccount(s: State, addr: Address, row: Row, writeOk: bool): (State, bool) {
    var (s', ok) := AddAccount(s, addr, row, writeOk);
    (if ok then s'.(cache := s'.cache + {addr}) else s', ok)
  }

  /** One step, and whether it ends without an error. */
  function Act(s: State, e: Event): (State, bool) {
    match e
    case Evict(addr) => (s.(cache := s.cache - {addr}), true)
    case Process(addr, ts, contractOk, lookupOk, writeOk) =>
      var (s', known) := AccountIsKnown(s, addr, lookupOk);
      if known then AccountMarkActivity(s', addr, ts, writeOk)
      else if !contractOk then (s', false)
      else StoreAccount(s', addr, Row(ts, 1), writeOk)
  }

  function Run(es: seq<Event>): State {
    if es == [] then Init() else Act(Run(es[..|es| - 1]), es[|es| - 1]).0
  }

  // -------------------------------------------------------------- theorems

  /** The account events processed without an error, in order. */
  function Processed(es: seq<Event>): seq<Event> {
    if es == [] then []
    else
      var before, e := es[..|es| - 1], es[|es| - 1];
      Processed(before) + (if e.Process? && Act(Run(before), e).1 then [e] else [])
  }

  function Count(log: seq<Event>, addr: Address): nat {
    if log == [] then 0
    else Count(log[..|log| - 1], addr) + (if log[|log| - 1].addr == addr then 1 else 0)
  }

  /** The time of the last event of an address. */
  function LastTime(log: seq<Event>, addr: Address): nat {
    if log == [] then 0
    else
      var e := log[|log| - 1];
      if e.Process? && e.addr == addr then e.ts else LastTime(log[..|log| - 1], addr)
  }

  /** What is cached as known has a row. */
  ghost predicate Coherent(s: State) {
    s.cache <= s.rows.Keys
  }

  /** The rows tell exactly what has been processed. */
  ghost predicate Counted(s: State, log: seq<Event>) {
    forall a :: && (a in s.rows <==> Count(log, a) > 0)
                && (a in s.rows ==> s.rows[a] == Row(LastTime(log, a), Count(log, a)))
  }

  ghost predicate InsertedOnce(s: State) {
    && (forall a :: a in s.rows <==> a in s.inserted)
    && (forall i, j :: 0 <= i < j < |s.inserted| ==> s.inserted[i] != s.inserted[j])
  }

  lemma CountLast(log: seq<Event>, e: Event)
    requires e.Process?
    ensures forall a :: Count(log + [e], a) == Count(log, a) + (if a == e.addr then 1 else 0)
    ensures forall a :: LastTime(log + [e], a) == if a == e.addr then e.ts else LastTime(log, a)
  {
  }

  /** One event keeps the register in order, whatever its log was. */
  lemma StepCounts(s: State, e: Event, log: seq<Event>)
    requires Coherent(s) && Counted(s, log) && InsertedOnce(s)
    ensures var (s', ok) := Act(s, e);
            Coherent(s') && InsertedOnce(s') && Counted(s', log + (if e.Process? && ok then [e] else []))
  {
    var (s', ok) := Act(s, e);
    if e.Process? && ok {
      CountLast(log, e);
      forall a
        ensures a in s'.rows <==> Count(log + [e], a) > 0
        ensures a in s'.rows ==> s'.rows[a] == Row(LastTime(log + [e], a), Count(log + [e], a))
      {
        assert a in s.rows <==> Count(log, a) > 0;
      }
    } else {
      assert s'.rows == s.rows && log + [] == log;
    }
  }

  /** However the cache behaves and whichever calls fail, a cached address has a row, every
      row is inserted once, and it counts the events processed without an error. */
  lemma {:induction false} RowsCountEvents(es: seq<Event>)
    ensures Coherent(Run(es)) && Counted(Run(es), Processed(es)) && InsertedOnce(Run(es))
  {
    if es != [] {
      var before, e := es[..|es| - 1], es[|es| - 1];
      RowsCountEvents(before);
      StepCounts(Run(before), e, Processed(before));
    }
  }

  /** An event is processed without an error exactly if its write succeeds, and the account is known,
      or it is new and its transaction's contract could be analysed. */
  lemma ProcessedExactlyWhen(s: State, e: Event)
    requires Coherent(s) && e.Process?
    ensures Act(s, e).1 <==>
            e.writeOk && (if e.addr in s.rows then e.addr in s.cache || e.lookupOk else e.contractOk)
  {
  }

  // -------------------------------------------------------- while it is cached

  function RunFrom(s: State, es: seq<Event>): State {
    if es == [] then s else Act(RunFrom(s, es[..|es| - 1]), es[|es| - 1]).0
  }

  /** The events of an address whose write succeeds. */
  function Written(es: seq<Event>, addr: Address): nat {
    if es == [] then 0
    else
      var e := es[|es| - 1];
      Written(es[..|es| - 1], addr) + if e.Process? && e.addr == addr && e.writeOk then 1 else 0
  }

  /** An account is cached once an event of it was processed, the first one included. */
  lemma ProcessedIsCached(s: State, e: Event)
    requires Coherent(s) && e.Process? && Act(s, e).1
    ensures e.addr in Act(s, e).0.cache
  {
  }

  lemma CachedStep(s: State, e: Event, addr: Address)
    requires Coherent(s) && addr in s.cache && e != Evict(addr)
    ensures var s' := Act(s, e).0;
            && Coherent(s') && addr in s'.cache
            && s'.rows[addr].counter ==
               s.rows[addr].counter + if e.Process? && e.addr == addr && e.writeOk then 1 else 0
  {
  }

  /** From then on, until it is evicted, each of its events is counted that can be written, whether
      its look-up would fail or not. */
  lemma {:induction false} CountedWhileCached(s: State, es: seq<Event>, addr: Address)
    requires Coherent(s) && addr in s.cache && Evict(addr) !in es
    ensures var s' := RunFrom(s, es);
            && Coherent(s') && addr in s'.cache
            && s'.rows[addr].counter == s.rows[addr].counter + Written(es, addr)
  {
    if es != [] {
      CountedWhileCached(s, es[..|es| - 1], addr);
      CachedStep(RunFrom(s, es[..|es| - 1]), es[|es| - 1], addr);
    }
  }

  /** So the first event of a new account is counted, and all after it until the eviction. */
  lemma NewAccountIsCounted(s: State, e: Event, es: seq<Event>)
    requires Coherent(s) && e.Process? && e.addr !in s.rows && e.contractOk && e.writeOk
    requires Evict(e.addr) !in es
    ensures var s' := RunFrom(Act(s, e).0, es);
            e.addr in s'.rows && s'.rows[e.addr].counter == 1 + Written(es, e.addr)
  {
    ProcessedIsCached(s, e);
    CountedWhileCached(Act(s, e).0, es, e.addr);
  }

  // ------------------------------------------------- what the cache changes

  /** The register without its cache: every event has to look up the row. */
  function Uncached(s: State, e: Event): (State, bool) {
    Act(s.(cache := {}), e)
  }

  function UncachedRun(es: seq<Event>): State {
    if es == [] then Init() else Uncached(UncachedRun(es[..|es| - 1]), es[|es| - 1]).0
  }

  /** The cache makes a difference exactly for a cached account whose look-up would fail: it is
      the cache that gets its activity counted. */
  lemma CacheMattersExactlyWhen(s: State, e: Event)
    requires Coherent(s)
    ensures Act(s, e).0.rows != Uncached(s, e).0.rows <==>
              e.Process? && e.writeOk && !e.lookupOk && e.addr in s.cache
    ensures Act(s, e).1 != Uncached(s, e).1 <==>
              e.Process? && e.writeOk && !e.lookupOk && e.addr in s.cache
  {
    if e.Process? && e.writeOk && e.addr in s.cache {
      assert Act(s, e).0.rows[e.addr].counter != s.rows[e.addr].counter;
    }
  }

  /** A register whose look-ups never fail. */
  function Unfailing(rows: map<Address, Row>, e: Event): map<Address, Row> {
    if e.Evict? || !e.writeOk then rows
    else if e.addr in rows then rows[e.addr := Row(e.ts, rows[e.addr].counter + 1)]
    else if e.contractOk then rows[e.addr := Row(e.ts, 1)]
    else rows
  }

  function UnfailingRun(es: seq<Event>): map<Address, Row> {
    if es == [] then map[] else Unfailing(UnfailingRun(es[..|es| - 1]), es[|es| - 1])
  }

  /** Compared with that, an activity is lost exactly for an account that fell out of the cache
      and whose look-up fails. */
  lemma ActivityLostExactlyWhen(s: State, e: Event)
    requires Coherent(s)
    ensures Act(s, e).0.rows != Unfailing(s.rows, e) <==>
              e.Process? && e.writeOk && !e.lookupOk && e.addr in s.rows && e.addr !in s.cache
  {
    if e.Process? && e.writeOk && e.addr in s.rows {
      assert Unfailing(s.rows, e)[e.addr].counter != s.rows[e.addr].counter;
    }
  }

  /** The same accounts are registered, with counters at most as large. */
  ghost predicate CountsAtMost(r: map<Address, Row>, r': map<Address, Row>) {
    r.Keys == r'.Keys && forall a :: a in r ==> r[a].counter <= r'[a].counter
  }

  lemma CacheCountsNoLess(u: State, s: State, e: Event)
    requires Coherent(s) && CountsAtMost(u.rows, s.rows)
    ensures CountsAtMost(Uncached(u, e).0.rows, Act(s, e).0.rows)
  {
    if !e.Process? {
      assert Uncached(u, e).0.rows == u.rows && Act(s, e).0.rows == s.rows;
    }
  }

  lemma CacheCountsNoMore(s: State, rows: map<Address, Row>, e: Event)
    requires Coherent(s) && CountsAtMost(s.rows, rows)
    ensures CountsAtMost(Act(s, e).0.rows, Unfailing(rows, e))
  {
  }

  /** Over any run the cache registers the same accounts as no cache would, and counts no less;
      and it counts no more than there is to count. */
  lemma {:induction false} CacheOnlyHelps(es: seq<Event>)
    ensures CountsAtMost(UncachedRun(es).rows, Run(es).rows)
    ensures CountsAtMost(Run(es).rows, UnfailingRun(es))
  {
    if es != [] {
      var before, e := es[..|es| - 1], es[|es| - 1];
      CacheOnlyHelps(before);
      RowsCountEvents(before);
      CacheCountsNoLess(UncachedRun(before), Run(before), e);
      CacheCountsNoMore(Run(before), UnfailingRun(before), e);
    }
  }

  lemma LookupsSucceed(u: State, s: State, e: Event)
    requires Coherent(s) && u.rows == s.rows && (e.Process? ==> e.lookupOk)
    ensures Uncached(u, e).0.rows == Act(s, e).0.rows == Unfailing(s.rows, e)
  {
  }

  /** Without failing look-ups nobody can tell that there is a cache. */
  lemma {:induction false} CacheIsTransparent(es: seq<Event>)
    requires forall e :: e in es && e.Process? ==> e.lookupOk
    ensures Run(es).rows == UncachedRun(es).rows == UnfailingRun(es)
  {
    if es != [] {
      var before, e := es[..|es| - 1], es[|es| - 1];
      assert forall x :: x in before ==> x in es;
      CacheIsTransparent(before);
      RowsCountEvents(before);
      LookupsSucceed(UncachedRun(before), Run(before), e);
    }
  }
}
