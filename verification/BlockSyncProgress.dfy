/**
 How far an active scan gets: what it pushes while all the other workers act, when it goes
 idle, and when scanner, orchestrator and dispatcher have blocked each other for ever.
 */
module BlockSyncProgress {
  import opened Wrappers
  import opened BlockSync
  import opened BlockSyncSafety

  // ---------------------------------------------------------------- numbers

  ghost predicate AllUpTo(numbers: seq<nat>, height: nat) {
    forall i :: 0 <= i < |numbers| ==> numbers[i] <= height
  }

  /** No number is above the height of the chain. */
  ghost predicate NumbersFit(n: Net) {
    && AllUpTo(n.queue, n.height) && AllUpTo(n.dispatched, n.height)
    && AllUpTo(n.pending, n.height) && AllUpTo(n.cache, n.height)
    && (n.holding.Some? ==> n.holding.value <= n.height)
    && n.scan.done <= n.height
  }

  /** The scanner never runs further than one past the chain, and does one thing at a time. */
  ghost predicate ScannerFits(s: Scanner, height: nat) {
    && s.next <= height + 1 && s.to <= height
    && (s.pulled.Some? ==> s.pulled.value == s.next <= s.to && s.switching.None? && !s.onIdle)
    && (s.switching.Some? ==> s.switching.value == s.onIdle)
  }

  ghost predicate ChannelsFit(n: Net) {
    && |n.queue| <= BLOCK_BUFFER_CAPACITY
    && |n.dispatched| <= BLOCK_BUFFER_CAPACITY
    && |n.switches| <= SWITCH_CAPACITY
  }

  ghost predicate Fits(n: Net) {
    NumbersFit(n) && ScannerFits(n.scan, n.height) && ChannelsFit(n)
  }

  lemma TickFits(n: Net, e: Event)
    requires n.scan.done <= n.height && ScannerFits(n.scan, n.height) && (e.ObserveTick? || e.ScanTick?)
    ensures ScannerFits(Step(n, e).scan, Step(n, e).height)
  {
  }

  lemma ScannerStepFits(n: Net, e: Event)
    requires n.scan.done <= n.height && ScannerFits(n.scan, n.height)
    ensures ScannerFits(Step(n, e).scan, Step(n, e).height)
  {
    if e.ObserveTick? || e.ScanTick? {
      TickFits(n, e);
    }
  }

  lemma ChannelStepFits(n: Net, e: Event)
    requires ChannelsFit(n)
    ensures ChannelsFit(Step(n, e))
  {
  }

  lemma UpToParts(numbers: seq<nat>, more: nat, height: nat)
    requires AllUpTo(numbers, height)
    ensures numbers != [] ==> numbers[0] <= height && AllUpTo(numbers[1..], height)
    ensures more <= height ==> AllUpTo(numbers + [more], height) && AllUpTo(AddHead(numbers, more), height)
  {
  }

  lemma ProducersFit(n: Net, e: Event)
    requires Fits(n) && (e.PushPulled? || e.PushPending? || e.NewHead? || e.TakeSwitch?)
    ensures NumbersFit(Step(n, e))
  {
    UpToParts(n.queue, if e.PushPulled? && n.scan.pulled.Some? then n.scan.pulled.value else 0, n.height);
    UpToParts(n.pending, 0, n.height);
    if e.NewHead? {
      UpToParts(n.cache, e.number, n.height);
    } else if e.PushPending? && n.pending != [] {
      UpToParts(n.queue, n.pending[0], n.height);
    }
  }

  lemma ConsumersFit(n: Net, e: Event)
    requires Fits(n) && (e.TakeBlock? || e.ReportBlock? || e.TakeDispatched?)
    ensures NumbersFit(Step(n, e))
  {
    UpToParts(n.queue, 0, n.height);
    UpToParts(n.dispatched, if n.holding.Some? then n.holding.value else 0, n.height);
  }

  lemma NumberStepFits(n: Net, e: Event)
    requires Fits(n)
    ensures NumbersFit(Step(n, e))
  {
    match e
    case GrowChain(_) =>
    case ObserveTick(_) =>
    case ScanTick(_, _) =>
    case SendSwitch =>
    case TakeBlock => ConsumersFit(n, e);
    case ReportBlock => ConsumersFit(n, e);
    case TakeDispatched => ConsumersFit(n, e);
    case _ => ProducersFit(n, e);
  }

  lemma {:induction false} RunFits(n: Net, es: seq<Event>)
    requires Fits(n)
    ensures Fits(Run(n, es))
    decreases |es|
  {
    if es != [] {
      var n', e := Run(n, es[..|es| - 1]), es[|es| - 1];
      RunFits(n, es[..|es| - 1]);
      ScannerStepFits(n', e);
      ChannelStepFits(n', e);
      NumberStepFits(n', e);
    }
  }

  lemma ReachableFits(n: Net, start: nat)
    requires Reachable(n, start)
    ensures Fits(n)
  {
    var height: nat, heightOk: bool, es: seq<Event> :|
      1 <= height && start <= height && n == Run(Init(start, height, heightOk), es);
    RunFits(Init(start, height, heightOk), es);
  }

  // --------------------------------------------------------------- catch-up

  /** The numbers from `lo` up to, but not including, `hi`. */
  function Range(lo: nat, hi: nat): seq<nat>
    requires lo <= hi
  {
    seq(hi - lo, i requires 0 <= i => lo + i)
  }

  /** The scanner is active in every state of the run, except perhaps in the last one. */
  ghost predicate ScansThrough(n: Net, es: seq<Event>)
    decreases |es|
  {
    es != [] ==> ScansThrough(n, es[..|es| - 1]) && !Run(n, es[..|es| - 1]).scan.onIdle
  }

  /** The tick that ends an active scan: a height read of a scanner that has passed it. */
  predicate EndsScan(n: Net, e: Event) {
    && !Busy(n.scan) && n.height < n.scan.next
    && (e == ObserveTick(true) || (e.ScanTick? && e.heightOk && n.scan.to < n.scan.next))
  }

  lemma ScanStep(n: Net, e: Event)
    requires Fits(n) && !n.scan.onIdle
    ensures Step(n, e).scan.onIdle <==> EndsScan(n, e)
    ensures n.scan.next <= Step(n, e).scan.next
    ensures Step(n, e).scanned == n.scanned + Range(n.scan.next, Step(n, e).scan.next)
    ensures Step(n, e).scan.onIdle ==> Step(n, e).scan.next == Step(n, e).height + 1
  {
  }

  lemma JoinRanges(lo: nat, mid: nat, hi: nat)
    requires lo <= mid <= hi
    ensures Range(lo, mid) + Range(mid, hi) == Range(lo, hi)
  {
  }

  /** The stretch pushed so far, and the next step of the scan. */
  lemma CatchUpStep(n: Net, n0: Net, e: Event)
    requires Fits(n) && !n.scan.onIdle
    requires n0.scan.next <= n.scan.next && n.scanned == n0.scanned + Range(n0.scan.next, n.scan.next)
    ensures n0.scan.next <= Step(n, e).scan.next
    ensures Step(n, e).scanned == n0.scanned + Range(n0.scan.next, Step(n, e).scan.next)
    ensures Step(n, e).scan.onIdle ==> Step(n, e).scan.next == Step(n, e).height + 1
  {
    ScanStep(n, e);
    JoinRanges(n0.scan.next, n.scan.next, Step(n, e).scan.next);
  }

  /** An active scanner pushes each block once and in order, whatever the others do in
      between, and goes idle exactly one past the end of the chain. */
  lemma {:induction false} CatchUp(n: Net, es: seq<Event>)
    requires Fits(n) && !n.scan.onIdle && ScansThrough(n, es)
    ensures var n' := Run(n, es);
            && n.scan.next <= n'.scan.next <= n'.height + 1
            && n'.scanned == n.scanned + Range(n.scan.next, n'.scan.next)
            && (n'.scan.onIdle ==> n'.scan.next == n'.height + 1)
    decreases |es|
  {
    if es != [] {
      var init := es[..|es| - 1];
      CatchUp(n, init);
      RunFits(n, init);
      CatchUpStep(Run(n, init), n, es[|es| - 1]);
    }
    RunFits(n, es);
  }

  ghost predicate FixedHeight(es: seq<Event>) {
    forall e :: e in es ==> !e.GrowChain?
  }

  lemma {:induction false} HeightStays(n: Net, es: seq<Event>)
    requires FixedHeight(es)
    ensures Run(n, es).height == n.height
    decreases |es|
  {
    if es != [] {
      HeightStays(n, es[..|es| - 1]);
    }
  }

  /** With the height fixed: the blocks pushed are a first part of those that remain, and the
      scanner goes idle when it has pushed all of them, and no others. */
  lemma CatchUpAtFixedHeight(n: Net, es: seq<Event>)
    requires Fits(n) && !n.scan.onIdle && ScansThrough(n, es) && FixedHeight(es)
    ensures Run(n, es).scanned <= n.scanned + Range(n.scan.next, n.height + 1)
    ensures Run(n, es).scan.onIdle ==> Run(n, es).scanned == n.scanned + Range(n.scan.next, n.height + 1)
  {
    CatchUp(n, es);
    HeightStays(n, es);
    var next := Run(n, es).scan.next;
    assert Range(n.scan.next, next) == Range(n.scan.next, n.height + 1)[..next - n.scan.next];
  }

  // ------------------------------------------------------------------- room

  /** Nothing but a full queue holds up who has something to send: 1000 blocks, 1000 numbers, or one
      change of state. */
  lemma SendsExactlyWhen(n: Net)
    ensures Step(n, PushPulled) != n <==> n.scan.pulled.Some? && |n.queue| < 1000
    ensures Step(n, PushPending) != n <==> n.pending != [] && |n.queue| < 1000
    ensures Step(n, ReportBlock) != n <==> n.holding.Some? && |n.dispatched| < 1000
    ensures Step(n, Event.SendSwitch) != n <==> n.scan.switching.Some? && n.switches == []
  {
    if n.pending != [] {
      assert |n.pending[1..]| < |n.pending|;
    }
  }

  // ---------------------------------------------------------------- counter

  /** Counting all that is queued takes the counter to the scanner's position. */
  ghost predicate CounterFollows(n: Net) {
    n.queued != [] ==> n.scan.next <= Watermark(n.queued) + 1
  }

  lemma WatermarkOfMore(history: seq<nat>, number: nat)
    ensures Watermark(history + [number]) == Advance(Watermark(history), number)
  {
    assert (history + [number])[..|history|] == history;
  }

  lemma {:induction false} WatermarkGrows(part: seq<nat>, history: seq<nat>)
    requires part <= history
    ensures Watermark(part) <= Watermark(history)
    decreases |history|
  {
    if part != history {
      WatermarkGrows(part, history[..|history| - 1]);
    }
  }

  lemma CountPushed(n: Net)
    requires CounterFollows(n) && n.scan.pulled == Some(n.scan.next)
    ensures CounterFollows(Step(n, PushPulled))
  {
    WatermarkOfMore(n.queued, n.scan.next);
  }

  lemma CountPending(n: Net, start: nat)
    requires Inv(n, start) && CounterFollows(n)
    ensures CounterFollows(Step(n, PushPending))
  {
    if n.pending != [] {
      WatermarkOfMore(n.queued, n.pending[0]);
    }
  }

  lemma CountObserved(n: Net, e: Event, start: nat)
    requires Inv(n, start) && CounterFollows(n) && (e.ObserveTick? || e.ScanTick?)
    ensures CounterFollows(Step(n, e))
  {
    if n.queued != [] {
      assert n.consumed <= n.queued;
      WatermarkGrows(n.consumed, n.queued);
    }
  }

  lemma CounterStep(n: Net, e: Event, start: nat)
    requires Inv(n, start) && CounterFollows(n)
    ensures CounterFollows(Step(n, e))
  {
    match e
    case PushPulled =>
      if n.scan.pulled.Some? {
        CountPushed(n);
      }
    case PushPending => CountPending(n, start);
    case ObserveTick(_) => CountObserved(n, e, start);
    case ScanTick(_, _) => CountObserved(n, e, start);
    case _ =>
  }

  lemma {:induction false} RunCounter(n: Net, es: seq<Event>, start: nat)
    requires Inv(n, start) && CounterFollows(n)
    ensures CounterFollows(Run(n, es)) && Inv(Run(n, es), start)
    decreases |es|
  {
    if es != [] {
      RunCounter(n, es[..|es| - 1], start);
      CounterStep(Run(n, es[..|es| - 1]), es[|es| - 1], start);
      StepInv(Run(n, es[..|es| - 1]), es[|es| - 1], start);
    }
  }

  /** Once all that was queued has been dispatched and counted, the counter is at most one block
      behind the scanner: every block it pushed moves the counter on. */
  lemma CounterCatchesUp(n: Net, start: nat)
    requires Reachable(n, start) && n.queued != [] && n.consumed == n.queued
    ensures n.scan.next <= n.scan.done + 1
  {
    var height: nat, heightOk: bool, es: seq<Event> :|
      1 <= height && start <= height && n == Run(Init(start, height, heightOk), es);
    InitInv(start, height, heightOk);
    RunCounter(Init(start, height, heightOk), es, start);
  }

  // --------------------------------------------------------------- progress

  /** The blocks on their way from a producer to the counter. */
  function InFlight(n: Net): nat {
    |n.queue| + |n.dispatched| + if n.holding.Some? then 1 else 0
  }

  /** The blocks that must be queued before the scanner is free again: the one it pulled, or
      those for which the orchestrator does not listen to its change of state. */
  function Owed(n: Net): nat {
    if n.scan.pulled.Some? then 1
    else if n.scan.switching.Some? && |n.switches| >= SWITCH_CAPACITY then |n.pending|
    else 0
  }

  /** More blocks wait for the dispatcher than it can pass on before the scanner, which waits
      for it, takes any number from it. */
  predicate Jammed(n: Net) {
    Owed(n) > 0 && InFlight(n) + Owed(n) > 2 * BLOCK_BUFFER_CAPACITY + 1
  }

  lemma JamStays(n: Net, e: Event)
    requires Fits(n) && Jammed(n)
    ensures Jammed(Step(n, e)) && Busy(Step(n, e).scan)
    ensures Step(n, e).scan == n.scan && Step(n, e).scanned == n.scanned
  {
  }

  /** Once jammed, the scanner stays as it is, whatever happens. */
  lemma {:induction false} JammedForEver(n: Net, es: seq<Event>)
    requires Fits(n) && Jammed(n)
    ensures Jammed(Run(n, es)) && Run(n, es).scan == n.scan && Run(n, es).scanned == n.scanned
    decreases |es|
  {
    if es != [] {
      JammedForEver(n, es[..|es| - 1]);
      RunFits(n, es[..|es| - 1]);
      JamStays(Run(n, es[..|es| - 1]), es[|es| - 1]);
    }
  }

  /** How much there is to do for the blocks on their way, and for the state changes. */
  function Load(n: Net): nat {
    4 * (|n.pending| + |n.cache|) + 3 * |n.queue| + (if n.holding.Some? then 2 else 0) + |n.dispatched|
    + |n.switches| + (if n.scan.switching.Some? then 2 else 0)
  }

  /** An action of the dispatcher, if it is not blocked. */
  function Pass(n: Net): Event {
    if n.holding.Some? then ReportBlock else TakeBlock
  }

  function CanPass(n: Net): bool {
    if n.holding.Some? then |n.dispatched| < BLOCK_BUFFER_CAPACITY else n.queue != []
  }

  /** An action that brings an active scanner closer to the end of its scan. */
  function Useful(n: Net): Event {
    if n.scan.pulled.Some? then
      if |n.queue| < BLOCK_BUFFER_CAPACITY then PushPulled else Pass(n)
    else if n.scan.switching.Some? then
      if |n.switches| < SWITCH_CAPACITY then SendSwitch
      else if n.pending == [] then TakeSwitch
      else if CanPass(n) then Pass(n)
      else PushPending
    else if n.dispatched != [] then TakeDispatched
    else if CanPass(n) then Pass(n)
    else ScanTick(true, true)
  }

  /** What a useful action makes smaller: the blocks to scan, the steps to the next pull, the
      load, and last the one height read needed at the end of the range. */
  ghost predicate Closer(n': Net, n: Net) {
    var pulled, pulled' := n.scan.pulled.Some?, n'.scan.pulled.Some?;
    || n.scan.next < n'.scan.next
    || (n'.scan.next == n.scan.next && !pulled && pulled')
    || (n'.scan.next == n.scan.next && pulled == pulled' && Load(n') < Load(n))
    || (n'.scan.next == n.scan.next && pulled == pulled' && Load(n') == Load(n)
        && n.scan.to < n.scan.next <= n'.scan.to)
  }

  lemma PassIsUseful(n: Net)
    requires Fits(n) && !n.scan.onIdle && !Jammed(n) && CanPass(n)
    ensures var n' := Step(n, Pass(n));
            n'.height == n.height && n'.scan == n.scan && !Jammed(n') && Load(n') < Load(n)
  {
  }

  lemma FreeScannerStep(n: Net)
    requires Fits(n) && !n.scan.onIdle && !Busy(n.scan) && (n.dispatched != [] || !CanPass(n))
    ensures var n' := Step(n, Useful(n));
            n'.height == n.height && (n'.scan.onIdle || (!Jammed(n') && Closer(n', n)))
  {
  }

  lemma PushingStep(n: Net)
    requires Fits(n) && !n.scan.onIdle && !Jammed(n) && n.scan.pulled.Some?
    requires |n.queue| < BLOCK_BUFFER_CAPACITY
    ensures var n' := Step(n, Useful(n));
            n'.height == n.height && !Jammed(n') && Closer(n', n)
  {
  }

  lemma SwitchingStep(n: Net)
    requires Fits(n) && !n.scan.onIdle && !Jammed(n) && n.scan.pulled.None? && n.scan.switching.Some?
    requires |n.switches| >= SWITCH_CAPACITY && n.pending != [] ==> !CanPass(n)
    ensures var n' := Step(n, Useful(n));
            n'.height == n.height && n'.scan.next == n.scan.next && n'.scan.pulled.None?
            && !Jammed(n') && Load(n') < Load(n)
  {
  }

  lemma UsefulStep(n: Net)
    requires Fits(n) && !n.scan.onIdle && !Jammed(n)
    ensures var n' := Step(n, Useful(n));
            n'.height == n.height && (n'.scan.onIdle || (!Jammed(n') && Closer(n', n)))
  {
    if n.scan.pulled.Some? && |n.queue| < BLOCK_BUFFER_CAPACITY {
      PushingStep(n);
    } else if Useful(n) == Pass(n) && CanPass(n) {
      PassIsUseful(n);
    } else if n.scan.switching.Some? {
      SwitchingStep(n);
    } else {
      FreeScannerStep(n);
    }
  }

  lemma {:induction false} RunFirst(n: Net, e: Event, rest: seq<Event>)
    ensures Run(n, [e] + rest) == Run(Step(n, e), rest)
    decreases |rest|
  {
    if rest == [] {
      RunOne(n, e);
    } else {
      RunFirst(n, e, rest[..|rest| - 1]);
      SplitLast([e], rest);
    }
  }

  lemma RunOne(n: Net, e: Event)
    ensures Run(n, [e] + []) == Step(n, e)
  {
    assert [e] + [] == [e] && [e][..0] == [];
    assert Run(n, []) == n;
  }

  lemma {:induction false} ScansThroughFirst(n: Net, e: Event, rest: seq<Event>)
    requires !n.scan.onIdle && ScansThrough(Step(n, e), rest)
    ensures ScansThrough(n, [e] + rest)
    decreases |rest|
  {
    if rest == [] {
      assert ([e] + rest)[..0] == [] && ScansThrough(n, []) && Run(n, []) == n;
    } else {
      ScansThroughFirst(n, e, rest[..|rest| - 1]);
      RunFirst(n, e, rest[..|rest| - 1]);
      SplitLast([e], rest);
    }
  }

  /** Without a jam some schedule lets the scanner finish, the chain being as it is. */
  lemma {:induction false} CanCatchUp(n: Net) returns (es: seq<Event>)
    requires Fits(n) && !n.scan.onIdle && !Jammed(n)
    ensures FixedHeight(es) && ScansThrough(n, es) && Run(n, es).scan.onIdle
    decreases n.height + 1 - n.scan.next, n.scan.pulled.None?, Load(n), n.scan.to < n.scan.next
  {
    var e := Useful(n);
    var n' := Step(n, e);
    UsefulStep(n);
    ScannerStepFits(n, e);
    ChannelStepFits(n, e);
    NumberStepFits(n, e);
    var rest := [];
    if !n'.scan.onIdle {
      rest := CanCatchUp(n');
    }
    RunFirst(n, e, rest);
    ScansThroughFirst(n, e, rest);
    es := [e] + rest;
  }

  /** An active scanner can still finish its scan exactly when the workers are not jammed. */
  lemma CatchesUpExactlyUnlessJammed(n: Net)
    requires Fits(n) && !n.scan.onIdle
    ensures (exists es: seq<Event> :: FixedHeight(es) && ScansThrough(n, es) && Run(n, es).scan.onIdle)
            <==> !Jammed(n)
  {
    if Jammed(n) {
      forall es: seq<Event>
        ensures !Run(n, es).scan.onIdle
      {
        JammedForEver(n, es);
      }
    } else {
      var es := CanCatchUp(n);
    }
  }

  // ------------------------------------------------------- a jam is reached

  /** The scanner has pushed `k` blocks and taken no number; the dispatcher passed on all it could. */
  ghost predicate Filled(n: Net, from: Net, k: nat) {
    && n.scan == from.scan.(next := from.scan.next + k) && n.height == from.height
    && n.pending == [] && n.switches == []
    && InFlight(n) == k && (n.queue != [] ==> n.holding.Some?)
    && (n.holding.Some? ==> |n.dispatched| >= BLOCK_BUFFER_CAPACITY)
    && ChannelsFit(n)
  }

  /** The scanner pushes one more block. */
  lemma PushOne(from: Net, n: Net, k: nat) returns (n': Net)
    requires CanReach(from, n) && Filled(n, from, k)
    requires k < 2 * BLOCK_BUFFER_CAPACITY + 1
    requires !from.scan.onIdle && !Busy(from.scan) && from.scan.next + k <= from.scan.to
    ensures CanReach(from, n')
    ensures n' == n.(scan := n'.scan, queue := n'.queue, queued := n'.queued, scanned := n'.scanned)
    ensures n'.scan == n.scan.(next := n.scan.next + 1) && n'.queue == n.queue + [n.scan.next]
  {
    var n1 := Step(n, ScanTick(true, true));
    ReachStep(from, n, ScanTick(true, true));
    n' := Step(n1, PushPulled);
    ReachStep(from, n1, PushPulled);
  }

  lemma {:induction false} Fill(from: Net, k: nat) returns (n: Net)
    requires Filled(from, from, 0) && k <= 2 * BLOCK_BUFFER_CAPACITY + 1
    requires !from.scan.onIdle && !Busy(from.scan) && from.scan.next + k <= from.scan.to + 1
    ensures CanReach(from, n) && Filled(n, from, k)
  {
    if k == 0 {
      assert from == Run(from, []);
      return from;
    }
    var n0 := Fill(from, k - 1);
    n := PushOne(from, n0, k - 1);
    if n.holding.None? {
      ReachStep(from, n, TakeBlock);
      n := Step(n, TakeBlock);
      if |n.dispatched| < BLOCK_BUFFER_CAPACITY {
        ReachStep(from, n, ReportBlock);
        n := Step(n, ReportBlock);
      }
    }
  }

  /** On a chain long enough the workers can jam before the first scan is done. */
  lemma JamExample(start: nat, height: nat) returns (es: seq<Event>)
    requires start + 2 * BLOCK_BUFFER_CAPACITY + 1 <= height
    ensures Jammed(Run(Init(start, height, true), es))
  {
    var from := Init(start, height, true);
    var n := Fill(from, 2 * BLOCK_BUFFER_CAPACITY + 1);
    ReachStep(from, n, ScanTick(true, true));
    es :| Step(n, ScanTick(true, true)) == Run(from, es);
  }
}
