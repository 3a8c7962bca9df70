/**
 The three workers of block synchronisation as the objects they are, updating their
 fields and sharing channels, proved to follow the state machine of BlockSync.
 */
module BlockSyncServices {
  import opened Wrappers
  import opened Channels
  import Spec = BlockSync
  import Safety = BlockSyncSafety

  class BlkScanner {
    const outBlock: Chan<nat>
    const outStateSwitch: Chan<bool>
    const inDispatched: Chan<nat>
    var onIdle: bool
    var from: nat
    var next: nat
    var to: nat
    var done: nat
    var switching: Option<bool>
    var pulled: Option<nat>
    ghost var scanned: seq<nat>  // all that was pushed so far

    function State(): Spec.Scanner
      reads this
    {
      Spec.Scanner(onIdle, from, next, to, done, switching, pulled)
    }

    constructor (start: nat, outBlock: Chan<nat>, outStateSwitch: Chan<bool>, inDispatched: Chan<nat>)
      ensures State() == Spec.Scanner(false, start, start, 0, 0, None, None) && scanned == []
      ensures this.outBlock == outBlock && this.outStateSwitch == outStateSwitch
      ensures this.inDispatched == inDispatched
    {
      this.outBlock, this.outStateSwitch, this.inDispatched := outBlock, outStateSwitch, inDispatched;
      onIdle, from, next, to, done := false, start, start, 0, 0;
      switching, pulled, scanned := None, None, [];
    }

    method Observe(height: Option<nat>) returns (idle: bool)
      modifies this`next, this`from, this`to
      ensures (State(), idle) == Spec.Observe(old(State()), height)
    {
      match height {
        case None =>
          return false;
        case Some(target) =>
          if onIdle && target < done + Spec.RESCAN_HYSTERESIS {
            next := done;
            from := done;
            return true;
          }
          to := target;
          return to < next;
      }
    }

    method UpdateState(target: bool)
      modifies this`onIdle, this`switching
      ensures State() == Spec.UpdateState(old(State()), target)
    {
      if target == onIdle {
        return;
      }
      onIdle := target;
      switching := Some(target);
    }

    method OnObserveTick(height: Option<nat>)
      modifies this`onIdle, this`from, this`next, this`to, this`switching
      ensures State() == Spec.ObserveAndUpdate(old(State()), height)
    {
      var idle := Observe(height);
      UpdateState(idle);
    }

    /** The scanner's tick; `blockOk` tells whether the node returns the block asked for. */
    method Shift(height: Option<nat>, blockOk: bool)
      modifies this`onIdle, this`from, this`next, this`to, this`switching, this`pulled
      ensures State() == Spec.Shift(old(State()), height, blockOk)
    {
      if onIdle {
        return;
      }
      if next > to {
        OnObserveTick(height);
        return;
      }
      if !blockOk {
        return;
      }
      pulled := Some(next);
    }

    /** The end of a tick that pulled a block: it is pushed once the queue has room. */
    method PushPulled()
      requires outBlock.Valid() && outBlock.HasRoom() && pulled.Some?
      modifies this, outBlock
      ensures outBlock.Valid() && State() == Spec.Pushed(old(State()))
      ensures scanned == old(scanned) + [old(pulled).value]
      ensures outBlock.items == old(outBlock.items) + [old(pulled).value]
      ensures outBlock.sent == old(outBlock.sent) + [old(pulled).value]
      ensures outBlock.Taken() == old(outBlock.Taken())
    {
      outBlock.Send(pulled.value);
      scanned := scanned + [pulled.value];
      pulled := None;
      next := next + 1;
    }

    /** Advertises a state change, once the orchestrator has taken the previous one. */
    method SendSwitch()
      requires outStateSwitch.Valid()
      requires switching.Some? && outStateSwitch.HasRoom()
      modifies this`switching, outStateSwitch
      ensures outStateSwitch.Valid()
      ensures State() == old(State()).(switching := None)
      ensures outStateSwitch.items == old(outStateSwitch.items) + [old(switching).value]
    {
      outStateSwitch.Send(switching.value);
      switching := None;
    }

    method OnDispatched()
      requires inDispatched.Valid() && inDispatched.items != []
      modifies this`done, inDispatched
      ensures inDispatched.Valid()
      ensures State() == old(State()).(done := Spec.Advance(old(done), old(inDispatched.items)[0]))
      ensures inDispatched.items == old(inDispatched.items)[1..]
      ensures inDispatched.sent == old(inDispatched.sent)
      ensures inDispatched.Taken() == old(inDispatched.Taken()) + [old(inDispatched.items)[0]]
    {
      var bin := inDispatched.Receive();
      if done == 0 || bin - done == 1 {
        done := bin;
      }
    }
  }

  class BlockDispatcher {
    const inBlock: Chan<nat>
    const outDispatched: Chan<nat>
    var holding: Option<nat>

    constructor (inBlock: Chan<nat>, outDispatched: Chan<nat>)
      ensures this.inBlock == inBlock && this.outDispatched == outDispatched && holding == None
    {
      this.inBlock, this.outDispatched, holding := inBlock, outDispatched, None;
    }

    method TakeBlock()
      requires inBlock.Valid() && inBlock.items != [] && holding.None?
      modifies this, inBlock
      ensures inBlock.Valid()
      ensures holding == Some(old(inBlock.items)[0])
      ensures inBlock.items == old(inBlock.items)[1..] && inBlock.sent == old(inBlock.sent)
      ensures inBlock.Taken() == old(inBlock.Taken()) + [old(inBlock.items)[0]]
    {
      var blk := inBlock.Receive();
      holding := Some(blk);
    }

    method Process()
      requires outDispatched.Valid() && outDispatched.HasRoom() && holding.Some?
      modifies this, outDispatched
      ensures outDispatched.Valid() && holding == None
      ensures outDispatched.items == old(outDispatched.items) + [old(holding).value]
      ensures outDispatched.Taken() == old(outDispatched.Taken())
    {
      outDispatched.Send(holding.value);
      holding := None;
    }
  }

  class Orchestrator {
    const inBlock: Chan<nat>  // the dispatcher's input, shared with the scanner
    const inScanStateSwitch: Chan<bool>
    const blkCache: Ring<nat>
    var pushHeads: bool
    var pending: seq<nat>

    constructor (inBlock: Chan<nat>, inScanStateSwitch: Chan<bool>, pushHeads: bool)
      ensures this.inBlock == inBlock && this.inScanStateSwitch == inScanStateSwitch
      ensures this.pushHeads == pushHeads && pending == []
      ensures fresh(blkCache) && blkCache.Valid() && fresh(blkCache.nodes)
      ensures blkCache.capacity == Spec.HEAD_CACHE_CAPACITY && blkCache.contents == []
    {
      this.inBlock, this.inScanStateSwitch, this.pushHeads := inBlock, inScanStateSwitch, pushHeads;
      blkCache := new Ring(Spec.HEAD_CACHE_CAPACITY);
      pending := [];
    }

    method HandleNewHead(number: nat, blockOk: bool)
      requires blkCache.Valid() && blkCache.capacity == Spec.HEAD_CACHE_CAPACITY && pending == []
      modifies this, blkCache, blkCache.nodes
      ensures blkCache.Valid() && pushHeads == old(pushHeads)
      ensures pending == if blockOk && pushHeads then [number] else []
      ensures blkCache.contents ==
              if blockOk && !pushHeads then Spec.AddHead(old(blkCache.contents), number)
              else old(blkCache.contents)
    {
      if !blockOk {
        return;
      }
      if pushHeads {
        pending := [number];
        return;
      }
      blkCache.Add(number);
    }

    method OnStateSwitch()
      requires inScanStateSwitch.Valid() && inScanStateSwitch.items != [] && pending == []
      requires blkCache.Valid() && blkCache.capacity == Spec.HEAD_CACHE_CAPACITY
      modifies this, inScanStateSwitch, blkCache
      ensures inScanStateSwitch.Valid() && blkCache.Valid()
      ensures pushHeads == old(inScanStateSwitch.items)[0]
      ensures inScanStateSwitch.items == old(inScanStateSwitch.items)[1..]
      ensures pending == if pushHeads then old(blkCache.contents) else []
      ensures blkCache.contents == if pushHeads then [] else old(blkCache.contents)
    {
      var idle := inScanStateSwitch.Receive();
      pushHeads := idle;
      if idle {
        UnloadCache();
      }
    }

    /** Takes all the cached heads for pushing, and forgets them. */
    method UnloadCache()
      requires blkCache.Valid() && blkCache.capacity == Spec.HEAD_CACHE_CAPACITY && pending == []
      modifies this`pending, blkCache
      ensures blkCache.Valid()
      ensures pending == old(blkCache.contents) && blkCache.contents == []
    {
      pending := blkCache.List(Spec.HEAD_CACHE_CAPACITY);
      blkCache.Reset();
    }

    method Push()
      requires inBlock.Valid() && inBlock.HasRoom() && pending != []
      modifies this, inBlock
      ensures inBlock.Valid() && pushHeads == old(pushHeads)
      ensures pending == old(pending)[1..]
      ensures inBlock.items == old(inBlock.items) + [old(pending)[0]]
      ensures inBlock.sent == old(inBlock.sent) + [old(pending)[0]]
      ensures inBlock.Taken() == old(inBlock.Taken())
    {
      inBlock.Send(pending[0]);
      pending := pending[1..];
    }
  }

  /** The services wired together, and the chain they follow. */
  class ServiceManager {
    const bls: BlkScanner
    const bld: BlockDispatcher
    const ora: Orchestrator
    var height: nat

    ghost predicate Valid()
      reads this, bls, bld, ora, bls.outBlock, bls.outStateSwitch, bls.inDispatched, ora.blkCache, ora.blkCache.nodes
    {
      && bld.inBlock == bls.outBlock == ora.inBlock
      && bld.outDispatched == bls.inDispatched
      && ora.inScanStateSwitch == bls.outStateSwitch
      && bls.outBlock != bls.inDispatched
      && bls.outBlock.Valid() && bls.inDispatched.Valid() && bls.outStateSwitch.Valid()
      && ora.blkCache.Valid()
      && bls.outBlock.capacity == bls.inDispatched.capacity == Spec.BLOCK_BUFFER_CAPACITY
      && bls.outStateSwitch.capacity == Spec.SWITCH_CAPACITY
      && ora.blkCache.capacity == Spec.HEAD_CACHE_CAPACITY
    }

    ghost function Abstract(): Spec.Net
      requires Valid()
      reads this, bls, bld, ora, bls.outBlock, bls.outStateSwitch, bls.inDispatched, ora.blkCache, ora.blkCache.nodes
    {
      Spec.Net(bls.State(), bls.outBlock.items, bld.holding, bls.inDispatched.items, bls.outStateSwitch.items,
               ora.pushHeads, ora.blkCache.contents, ora.pending, height,
               bls.outBlock.sent, bls.scanned, bls.outBlock.Taken(), bls.inDispatched.Taken())
    }

    /** Wires the channels, starts the scanner and makes its first observation. */
    constructor (start: nat, height: nat, heightOk: bool)
      ensures Valid() && fresh(bls) && fresh(bld) && fresh(ora)
      ensures fresh(bls.outBlock) && fresh(bls.outStateSwitch) && fresh(bls.inDispatched)
      ensures fresh(ora.blkCache) && fresh(ora.blkCache.nodes)
      ensures Abstract() == Spec.Init(start, height, heightOk)
    {
      var blocks := new Chan<nat>(Spec.BLOCK_BUFFER_CAPACITY);
      var dispatched := new Chan<nat>(Spec.BLOCK_BUFFER_CAPACITY);
      var switches := new Chan<bool>(Spec.SWITCH_CAPACITY);
      var scanner := new BlkScanner(start, blocks, switches, dispatched);
      var dispatcher := new BlockDispatcher(blocks, dispatched);
      var orchestrator := new Orchestrator(blocks, switches, scanner.onIdle);
      var _ := scanner.Observe(Spec.ReadHeight(height, heightOk));
      ghost var state := scanner.State();
      assert state == Spec.Init(start, height, heightOk).scan;
      bls, bld, ora := scanner, dispatcher, orchestrator;
      this.height := height;
      new;
      assert Abstract() == Spec.Net(state, [], None, [], [], false, [], [], height, [], [], [], []);
    }

    method ExecuteScanner(e: Spec.Event)
      requires Valid() && (e.ObserveTick? || e.ScanTick?)
      modifies this, bls, bld, ora, bls.outBlock, bls.outStateSwitch, bls.inDispatched, ora.blkCache, ora.blkCache.nodes
      ensures Valid()
      ensures Abstract() == Spec.Step(old(Abstract()), e)
    {
      if !Spec.Busy(bls.State()) {
        if e.ObserveTick? {
          bls.OnObserveTick(Spec.ReadHeight(height, e.heightOk));
        } else {
          bls.Shift(Spec.ReadHeight(height, e.heightOk), e.blockOk);
        }
      }
    }

    method ExecuteSwitch()
      requires Valid()
      modifies this, bls, bld, ora, bls.outBlock, bls.outStateSwitch, bls.inDispatched, ora.blkCache, ora.blkCache.nodes
      ensures Valid()
      ensures Abstract() == Spec.Step(old(Abstract()), Spec.SendSwitch)
    {
      if bls.switching.Some? && bls.outStateSwitch.HasRoom() { bls.SendSwitch(); }
    }

    method ExecuteScannerQueues(e: Spec.Event)
      requires Valid() && (e.PushPulled? || e.TakeDispatched?)
      modifies this, bls, bld, ora, bls.outBlock, bls.outStateSwitch, bls.inDispatched, ora.blkCache, ora.blkCache.nodes
      ensures Valid()
      ensures Abstract() == Spec.Step(old(Abstract()), e)
    {
      if e.PushPulled? {
        if bls.pulled.Some? && bls.outBlock.HasRoom() { bls.PushPulled(); }
      } else if !Spec.Busy(bls.State()) && bls.inDispatched.items != [] {
        bls.OnDispatched();
      }
    }

    method ExecuteHead(number: nat, blockOk: bool)
      requires Valid()
      modifies this, bls, bld, ora, bls.outBlock, bls.outStateSwitch, bls.inDispatched, ora.blkCache, ora.blkCache.nodes
      ensures Valid()
      ensures Abstract() == Spec.Step(old(Abstract()), Spec.NewHead(number, blockOk))
    {
      if ora.pending == [] { ora.HandleNewHead(number, blockOk && number <= height); }
    }

    method ExecuteStateSwitch()
      requires Valid()
      modifies this, bls, bld, ora, bls.outBlock, bls.outStateSwitch, bls.inDispatched, ora.blkCache, ora.blkCache.nodes
      ensures Valid()
      ensures Abstract() == Spec.Step(old(Abstract()), Spec.TakeSwitch)
    {
      if ora.pending == [] && bls.outStateSwitch.items != [] { ora.OnStateSwitch(); }
    }

    method ExecutePush()
      requires Valid()
      modifies this, bls, bld, ora, bls.outBlock, bls.outStateSwitch, bls.inDispatched, ora.blkCache, ora.blkCache.nodes
      ensures Valid()
      ensures Abstract() == Spec.Step(old(Abstract()), Spec.PushPending)
    {
      if ora.pending != [] && ora.inBlock.HasRoom() { ora.Push(); }
    }

    method ExecuteDispatcher(e: Spec.Event)
      requires Valid() && (e.TakeBlock? || e.ReportBlock?)
      modifies this, bls, bld, ora, bls.outBlock, bls.outStateSwitch, bls.inDispatched, ora.blkCache, ora.blkCache.nodes
      ensures Valid()
      ensures Abstract() == Spec.Step(old(Abstract()), e)
    {
      match e {
        case TakeBlock =>
          if bld.holding.None? && bld.inBlock.items != [] { bld.TakeBlock(); }
        case ReportBlock =>
          if bld.holding.Some? && bld.outDispatched.HasRoom() { bld.Process(); }
      }
    }

    /** One atomic action of one worker, whichever the scheduler picks. */
    method Execute(e: Spec.Event)
      requires Valid()
      modifies this, bls, bld, ora, bls.outBlock, bls.outStateSwitch, bls.inDispatched, ora.blkCache, ora.blkCache.nodes
      ensures Valid()
      ensures Abstract() == Spec.Step(old(Abstract()), e)
    {
      if e.GrowChain? {
        height := height + e.blocks;
      } else if e.NewHead? {
        ExecuteHead(e.number, e.blockOk);
      } else if e.TakeSwitch? {
        ExecuteStateSwitch();
      } else if e.PushPending? {
        ExecutePush();
      } else if e.TakeBlock? || e.ReportBlock? {
        ExecuteDispatcher(e);
      } else if e.SendSwitch? {
        ExecuteSwitch();
      } else if e.PushPulled? || e.TakeDispatched? {
        ExecuteScannerQueues(e);
      } else {
        ExecuteScanner(e);
      }
    }

    /** Any schedule at all: the services follow the state machine. */
    method ExecuteAll(es: seq<Spec.Event>)
      requires Valid()
      modifies this, bls, bld, ora, bls.outBlock, bls.outStateSwitch, bls.inDispatched, ora.blkCache, ora.blkCache.nodes
      ensures Valid()
      ensures Abstract() == Spec.Run(old(Abstract()), es)
    {
      for i := 0 to |es|
        invariant Valid()
        invariant Abstract() == Spec.Run(old(Abstract()), es[..i])
      {
        Execute(es[i]);
        assert es[..i + 1][..i] == es[..i];
      }
      assert es[..|es|] == es;
    }
  }

  /** The services from their start, under any schedule: nothing is skipped. */
  method Synchronise(start: nat, height: nat, heightOk: bool, es: seq<Spec.Event>) returns (mgr: ServiceManager)
    requires 1 <= height && start <= height
    ensures mgr.Valid() && Spec.NothingSkipped(mgr.Abstract(), start)
  {
    mgr := new ServiceManager(start, height, heightOk);
    mgr.ExecuteAll(es);
    assert Safety.Reachable(mgr.Abstract(), start);
    Safety.NoBlockSkipped(mgr.Abstract(), start);
  }
}
