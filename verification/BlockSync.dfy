/**
 Block synchronisation as a state machine: the block scanner, the orchestrator
 and the block dispatcher share two FIFO queues of block numbers.  Every event
 is one atomic action of one of the three workers, or of their environment; an
 action that is not enabled (a full channel, an empty one, a busy worker) leaves
 the state alone, so a run is an arbitrary sequence of events.
 */
module BlockSync {
  import opened Wrappers

  const BLOCK_BUFFER_CAPACITY: nat := 1000
  const SWITCH_CAPACITY: nat := 1
  const RESCAN_HYSTERESIS: nat := 100
  const HEAD_CACHE_CAPACITY: nat := 50

  /** The scanner's fields; `switching` is a state change it still has to advertise, `pulled` a
      block it still has to push. */
  datatype Scanner = Scanner(
    onIdle: bool,
    from: nat,
    next: nat,
    to: nat,
    done: nat,
    switching: Option<bool>,
    pulled: Option<nat>)

  datatype Net = Net(
    scan: Scanner,
    queue: seq<nat>,       // scanner and orchestrator -> dispatcher
    holding: Option<nat>,  // received by the dispatcher, not reported yet
    dispatched: seq<nat>,  // dispatcher -> scanner
    switches: seq<bool>,   // scanner -> orchestrator
    pushHeads: bool,
    cache: seq<nat>,       // recent heads, newest first
    pending: seq<nat>,     // blocks the orchestrator is busy pushing
    height: nat,           // the height of the chain
    queued: seq<nat>,      // history: everything ever put on `queue`
    scanned: seq<nat>,     // history: what the scanner put there
    received: seq<nat>,    // history: everything the dispatcher took from it
    consumed: seq<nat>)    // history: everything the scanner took from `dispatched`

  datatype Event =
    | GrowChain(blocks: nat)
    | ObserveTick(heightOk: bool)
    | ScanTick(heightOk: bool, blockOk: bool)
    | SendSwitch
    | PushPulled
    | TakeDispatched
    | NewHead(number: nat, blockOk: bool)
    | TakeSwitch
    | PushPending
    | TakeBlock
    | ReportBlock

  // ---------------------------------------------------------------- scanner

  function ReadHeight(height: nat, ok: bool): Option<nat> {
    if ok then Some(height) else None
  }

  /** `observe`: the scanner after reading the height, and the idle state it should be in. */
  function Observe(s: Scanner, height: Option<nat>): (Scanner, bool) {
    match height
    case None => (s, false)
    case Some(target) =>
      if s.onIdle && target < s.done + RESCAN_HYSTERESIS then
        (s.(next := s.done, from := s.done), true)
      else
        (s.(to := target), target < s.next)
  }

  /** `updateState`: a state that changes is to be advertised on the switch channel. */
  function UpdateState(s: Scanner, target: bool): Scanner {
    if target == s.onIdle then s else s.(onIdle := target, switching := Some(target))
  }

  function ObserveAndUpdate(s: Scanner, height: Option<nat>): Scanner {
    var (s', idle) := Observe(s, height);
    UpdateState(s', idle)
  }

  /** The scanner is in the middle of a tick, waiting for room in a channel. */
  predicate Busy(s: Scanner) {
    s.switching.Some? || s.pulled.Some?
  }

  /** `shift`, up to the push of the block it pulled, if any. */
  function Shift(s: Scanner, height: Option<nat>, blockOk: bool): Scanner {
    if s.onIdle then s
    else if s.to < s.next then ObserveAndUpdate(s, height)
    else if blockOk then s.(pulled := Some(s.next))
    else s
  }

  /** The end of `shift`: the block is pushed. */
  function Pushed(s: Scanner): Scanner {
    s.(pulled := None, next := s.next + 1)
  }

  /** The `done` counter: it takes the first number dispatched, then only its successors. */
  function Advance(done: nat, dispatched: nat): nat {
    if done == 0 || dispatched == done + 1 then dispatched else done
  }

  /** The `done` counter after a whole history of dispatched numbers. */
  function Watermark(history: seq<nat>): nat {
    if history == [] then 0
    else Advance(Watermark(history[..|history| - 1]), history[|history| - 1])
  }

  // ----------------------------------------------------------------- system

  /** The ring of recent heads keeps the last 50 of them, newest first. */
  function AddHead(cache: seq<nat>, number: nat): seq<nat> {
    var all := [number] + cache;
    if |all| <= HEAD_CACHE_CAPACITY then all else all[..HEAD_CACHE_CAPACITY]
  }

  /** The services right after the scanner's first, unconditional `observe`. */
  function Init(start: nat, height: nat, heightOk: bool): Net {
    var s := Scanner(false, start, start, 0, 0, None, None);
    Net(Observe(s, ReadHeight(height, heightOk)).0, [], None, [], [], false, [], [], height, [], [], [], [])
  }

  function Enqueue(n: Net, number: nat): Net {
    n.(queue := n.queue + [number], queued := n.queued + [number])
  }

  function Step(n: Net, e: Event): Net {
    match e
    case GrowChain(blocks) =>
      n.(height := n.height + blocks)
    case ObserveTick(heightOk) =>
      if Busy(n.scan) then n
      else n.(scan := ObserveAndUpdate(n.scan, ReadHeight(n.height, heightOk)))
    case ScanTick(heightOk, blockOk) =>
      if Busy(n.scan) then n
      else n.(scan := Shift(n.scan, ReadHeight(n.height, heightOk), blockOk))
    case PushPulled =>
      if n.scan.pulled.None? || |n.queue| >= BLOCK_BUFFER_CAPACITY then n
      else
        var number := n.scan.pulled.value;
        Enqueue(n.(scan := Pushed(n.scan), scanned := n.scanned + [number]), number)
    case SendSwitch =>
      if n.scan.switching.None? || |n.switches| >= SWITCH_CAPACITY then n
      else n.(switches := n.switches + [n.scan.switching.value], scan := n.scan.(switching := None))
    case TakeDispatched =>
      if Busy(n.scan) || n.dispatched == [] then n
      else
        var number := n.dispatched[0];
        n.(scan := n.scan.(done := Advance(n.scan.done, number)),
           dispatched := n.dispatched[1..],
           consumed := n.consumed + [number])
    case NewHead(number, blockOk) =>
      if n.pending != [] || !blockOk || n.height < number then n
      else if n.pushHeads then n.(pending := [number])
      else n.(cache := AddHead(n.cache, number))
    case TakeSwitch =>
      if n.pending != [] || n.switches == [] then n
      else
        var n' := n.(pushHeads := n.switches[0], switches := n.switches[1..]);
        if n.switches[0] then n'.(pending := n.cache, cache := []) else n'
    case PushPending =>
      if n.pending == [] || |n.queue| >= BLOCK_BUFFER_CAPACITY then n
      else Enqueue(n, n.pending[0]).(pending := n.pending[1..])
    case TakeBlock =>
      if n.holding.Some? || n.queue == [] then n
      else n.(holding := Some(n.queue[0]), queue := n.queue[1..], received := n.received + [n.queue[0]])
    case ReportBlock =>
      if n.holding.None? || |n.dispatched| >= BLOCK_BUFFER_CAPACITY then n
      else n.(dispatched := n.dispatched + [n.holding.value], holding := None)
  }

  function Run(n: Net, es: seq<Event>): Net
    decreases |es|
  {
    if es == [] then n else Step(Run(n, es[..|es| - 1]), es[|es| - 1])
  }

  // ------------------------------------------------------------- properties

  /** All blocks from `lo` up to, but not including, `hi` occur in the history. */
  ghost predicate Covers(history: seq<nat>, lo: nat, hi: nat) {
    forall b :: lo <= b < hi ==> b in history
  }

  /** No block is skipped: all that the scanner has passed was queued, and all that its
      `done` counter claims was received. */
  ghost predicate NothingSkipped(n: Net, start: nat) {
    && Covers(n.queued, start, n.scan.next)
    && (n.consumed != [] ==> Covers(n.received, start, n.scan.done + 1))
  }

  /** How many blocks only the scanner itself can have queued first. */
  function Lead(start: nat): nat {
    if start == 0 then 2 else 1
  }

  /** The history opens with the scanner's own first blocks. */
  ghost predicate OpensAt(history: seq<nat>, start: nat) {
    forall i :: 0 <= i < |history| && i < Lead(start) ==> history[i] == start + i
  }

  /** The scanner has never been idle. */
  ghost predicate NeverIdle(n: Net) {
    && !n.scan.onIdle
    && n.scan.switching != Some(true)
    && true !in n.switches
    && !n.pushHeads
    && n.pending == []
  }

  /** The two queues deliver in order, without loss or duplication. */
  ghost predicate QueuesConserve(n: Net) {
    && n.queued == n.received + n.queue
    && n.received == n.consumed + n.dispatched + (if n.holding.Some? then [n.holding.value] else [])
  }

  /** What every reachable state satisfies. */
  ghost predicate Inv(n: Net, start: nat) {
    && 1 <= n.height && start <= n.height
    && QueuesConserve(n)
    && n.scan.done == Watermark(n.consumed)
    && OpensAt(n.queued, start)
    && (|n.queued| < Lead(start) ==> NeverIdle(n) && n.scan.next == start + |n.queued|)
    && Covers(n.queued, start, n.scan.next)
    && n.scan.to <= n.height
    && (n.scan.pulled.Some? ==> n.scan.pulled.value == n.scan.next && n.scan.switching.None?)
  }

  /** The `done` counter only claims blocks of an opening, gap-free chain of its history. */
  lemma {:induction false} WatermarkCovers(history: seq<nat>, start: nat)
    requires OpensAt(history, start)
    ensures history != [] ==> Covers(history, start, Watermark(history) + 1)
    ensures history != [] ==> start <= Watermark(history)
    ensures Lead(start) <= |history| ==> 1 <= Watermark(history)
  {
    if history != [] {
      var init, last := history[..|history| - 1], history[|history| - 1];
      WatermarkCovers(init, start);
      assert history == init + [last];
      if |init| < Lead(start) {
        assert last == start + |init|;
      }
      forall b | start <= b < Watermark(history) + 1
        ensures b in history
      {
        if b != last {
          assert b in init;
        }
      }
    }
  }

  lemma InitInv(start: nat, height: nat, heightOk: bool)
    requires 1 <= height && start <= height
    ensures Inv(Init(start, height, heightOk), start)
    ensures var s := Init(start, height, heightOk).scan;
            && !s.onIdle && !Busy(s) && s.next == s.from == start && s.done == 0
            && s.to == if heightOk then height else 0
  {
  }

  lemma CoversMore(history: seq<nat>, more: nat, lo: nat, hi: nat)
    requires Covers(history, lo, hi)
    ensures Covers(history + [more], lo, hi)
    ensures more == hi ==> Covers(history + [more], lo, hi + 1)
  {
  }

  /** A height read moves `next` only back to `done`, whose blocks were all received. */
  lemma ObserveInv(n: Net, start: nat, height: Option<nat>)
    requires Inv(n, start) && !Busy(n.scan)
    requires height == None || height == Some(n.height)
    ensures Inv(n.(scan := ObserveAndUpdate(n.scan, height)), start)
  {
    var n' := n.(scan := ObserveAndUpdate(n.scan, height));
    if n'.scan.next != n.scan.next && n.consumed != [] {
      assert OpensAt(n.consumed, start) by {
        assert n.consumed <= n.queued;
      }
      WatermarkCovers(n.consumed, start);
      forall b | start <= b < n'.scan.next
        ensures b in n.queued
      {
        assert b in n.consumed;
      }
    }
  }

  lemma ScanTickInv(n: Net, e: Event, start: nat)
    requires Inv(n, start) && e.ScanTick?
    ensures Inv(Step(n, e), start)
  {
    if !Busy(n.scan) && !n.scan.onIdle && n.scan.to < n.scan.next {
      ObserveInv(n, start, ReadHeight(n.height, e.heightOk));
    }
  }

  lemma PushPulledInv(n: Net, start: nat)
    requires Inv(n, start)
    ensures Inv(Step(n, PushPulled), start)
  {
    if Step(n, PushPulled) != n {
      CoversMore(n.queued, n.scan.next, start, n.scan.next);
    }
  }

  lemma TakeDispatchedInv(n: Net, start: nat)
    requires Inv(n, start)
    ensures Inv(Step(n, TakeDispatched), start)
  {
  }

  lemma PushPendingInv(n: Net, start: nat)
    requires Inv(n, start)
    ensures Inv(Step(n, PushPending), start)
  {
  }

  lemma DispatcherInv(n: Net, e: Event, start: nat)
    requires Inv(n, start) && (e.TakeBlock? || e.ReportBlock?)
    ensures Inv(Step(n, e), start)
  {
  }

  lemma StepInv(n: Net, e: Event, start: nat)
    requires Inv(n, start)
    ensures Inv(Step(n, e), start)
  {
    match e
    case GrowChain(_) =>
    case ObserveTick(heightOk) =>
      if !Busy(n.scan) {
        ObserveInv(n, start, ReadHeight(n.height, heightOk));
      }
    case ScanTick(_, _) => ScanTickInv(n, e, start);
    case PushPulled => PushPulledInv(n, start);
    case TakeDispatched => TakeDispatchedInv(n, start);
    case PushPending => PushPendingInv(n, start);
    case TakeBlock => DispatcherInv(n, e, start);
    case ReportBlock => DispatcherInv(n, e, start);
    case _ =>
  }
}
