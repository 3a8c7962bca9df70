/**
 The burn dispatcher, the in-memory container and the burn collections as the objects they
 are, proved to follow BurnRuns and BurnTotals.
 */
module BurnServices {
  import opened Wrappers
  import opened FeeSplit
  import opened BurnRuns
  import opened BurnTotals
  import BurnTotalsSafety

  class BurnTotalContainer {
    var block: nat
    var value: int
    var nextLoad: nat

    constructor (block: nat, value: int, nextLoad: nat)
      ensures this.block == block && this.value == value && this.nextLoad == nextLoad
    {
      this.block, this.value, this.nextLoad := block, value, nextLoad;
    }
  }

  class BurnRepository {
    var burnContainer: BurnTotalContainer?
    var burns: seq<Burn>
    var burnsSum: Option<int>

    ghost function Abstract(): Totals
      reads this, burnContainer
    {
      var c := if burnContainer == null then None
               else Some(Container(burnContainer.block, burnContainer.value, burnContainer.nextLoad));
      Totals(c, burns, burnsSum)
    }

    constructor ()
      ensures Abstract() == EMPTY && burnContainer == null
    {
      burnContainer, burns, burnsSum := null, [], None;
    }

    /** The stored total; a missing aggregate is created. */
    method BurnTotal(loadOk: bool) returns (r: Result<int>)
      modifies this`burnsSum
      ensures r.Ok? <==> loadOk
      ensures loadOk ==> (Abstract(), r.value) == LoadTotal(old(Abstract()))
      ensures !loadOk ==> Abstract() == old(Abstract())
    {
      if !loadOk {
        return Err;
      }
      match burnsSum {
        case None =>
          burnsSum := Some(0);
          return Ok(0);
        case Some(v) =>
          return Ok(v);
      }
    }

    /** The total for a reader: from memory once there is a container, else from the database. */
    method FtmBurnTotal(loadOk: bool) returns (r: Result<int>)
      modifies this`burnsSum
      ensures Abstract() == Serve(old(Abstract()), loadOk)
      ensures burnContainer != null ==> r == Ok(burnContainer.value)
      ensures burnContainer == null && loadOk ==> r == Ok(StoredTotal(old(Abstract()))) && burnsSum.Some?
      ensures burnContainer == null && !loadOk ==> r == Err
    {
      if burnContainer == null {
        r := BurnTotal(loadOk);
      } else {
        r := Ok(burnContainer.value);
      }
    }

    method RefreshBurnUpdate(burn: Burn, db: Answers) returns (ok: bool)
      modifies this
      ensures match Refresh(old(Abstract()), burn, db)
              case Err => !ok && Abstract() == old(Abstract()) && burnContainer == old(burnContainer)
              case Ok(t) => ok && Abstract() == t && fresh(burnContainer)
    {
      if burn.block == 0 {
        return false;
      }
      var v := BurnTotal(db.loadOk);
      if v.Err? {
        return false;
      }
      burnContainer := new BurnTotalContainer(burn.block - 1, v.value, burn.block + RELOAD_PERIOD);
      return true;
    }

    method FtmBurnUpdate(burn: Burn, db: Answers)
      modifies this, burnContainer
      ensures Abstract() == UpdateCache(old(Abstract()), burn, db)
      ensures burnContainer == old(burnContainer) || fresh(burnContainer)
    {
      if burnContainer == null || burnContainer.nextLoad <= burn.block {
        var ok := RefreshBurnUpdate(burn, db);
        if !ok {
          return;
        }
      }
      if burn.block <= burnContainer.block {
        return;
      }
      burnContainer.block := burn.block;
      burnContainer.value := burnContainer.value + Value(burn);
    }

    method BurnAddBurnValue(v: int, incOk: bool)
      modifies this`burnsSum
      ensures Abstract() ==
              if incOk && old(burnsSum).Some?
              then old(Abstract()).(aggregate := Some(StoredTotal(old(Abstract())) + v)) else old(Abstract())
    {
      if incOk && burnsSum.Some? {
        burnsSum := Some(burnsSum.value + v);
      }
    }

    /** The error of a failed increment is only logged. */
    method StoreBurnRow(burn: Burn, db: Answers) returns (ok: bool)
      modifies this
      ensures Abstract() == StoreBurn(old(Abstract()), burn, db) && burnContainer == old(burnContainer)
      ensures ok == db.rowOk
    {
      if !db.rowOk {
        return false;
      }
      var upserted := !Known(burns, burn.block);
      burns := Upsert(burns, burn);
      if upserted {
        BurnAddBurnValue(Value(burn), db.incOk);
      }
      return true;
    }

    method StoreFtmBurn(burn: Burn, db: Answers) returns (ok: bool)
      modifies this, burnContainer
      ensures Abstract() == Store(old(Abstract()), burn, db) && ok == db.rowOk
      ensures burnContainer == old(burnContainer) || fresh(burnContainer)
    {
      FtmBurnUpdate(burn, db);
      ok := StoreBurnRow(burn, db);
    }

    /** The aggregation over all the rows. */
    method BurnTotalSlow() returns (r: Result<int>)
      ensures r == BurnTotalsSafety.BurnTotalSlow(Abstract())
    {
      if burns == [] {
        return Err;
      }
      var amount := 0;
      for i := 0 to |burns|
        invariant amount == SumValues(burns[..i])
      {
        amount := amount + Value(burns[i]);
        assert burns[..i + 1][..i] == burns[..i];
      }
      assert burns[..|burns|] == burns;
      return Ok(amount);
    }
  }

  class BurnDispatcher {
    const repo: BurnRepository
    var current: Option<FtmBurn>
    ghost var stream: seq<TrxEvent>  // all that was processed
    ghost var trxs: seq<Transaction> // the transactions these are the events of
    ghost var runs: seq<Run>         // its maximal runs
    ghost var ops: seq<Op>           // what was asked of the repository

    /** The first `n` runs were handed to the repository. */
    ghost predicate Handed(n: nat)
      reads this
    {
      && n <= |runs| && MaximalRuns(runs, stream) && |BurnTotalsSafety.Burns(ops)| == n
      && forall i :: 0 <= i < n ==>
           BurnTotalsSafety.Burns(ops)[i] == BurnTotalsSafety.BurnOf(Record(runs[i]))
    }

    ghost predicate Valid()
      reads this, repo, repo.burnContainer
    {
      Grouped() && StreamOf(stream, trxs)
    }

    /** The last run is pending, the others were handed over. */
    ghost predicate Grouped()
      reads this, repo, repo.burnContainer
    {
      && Handed(if runs == [] then 0 else |runs| - 1)
      && (current.None? <==> runs == [])
      && (runs != [] ==> current.value == Record(runs[|runs| - 1]))
      && repo.Abstract() == ApplyAll(EMPTY, ops)
    }

    constructor ()
      ensures Valid() && fresh(repo) && repo.burnContainer == null
      ensures stream == [] && ops == []
    {
      repo := new BurnRepository();
      current, stream, trxs, runs, ops := None, [], [], [], [];
    }

    /** Collects one transaction, with the fees it pays. */
    method Process(blk: nat, ts: nat, trx: Transaction, db: Answers)
      requires Valid()
      modifies this, repo, repo.burnContainer
      ensures Valid()
      ensures repo.burnContainer == old(repo.burnContainer) || fresh(repo.burnContainer)
      ensures stream == old(stream) + [TrxEvent(blk, ts, trx.hash, BurnedFee(trx))]
      ensures trxs == old(trxs) + [trx]
    {
      var fees := BurnedFee(trx);
      Collect(TrxEvent(blk, ts, trx.hash, fees), db);
      trxs := trxs + [trx];
    }

    /** What the records carry and what rounding lost are the fees of the transactions. */
    lemma NothingLost()
      requires Valid()
      ensures Sum(RecordFees(Records(runs))) == Total(stream)
      ensures 0 <= Total(stream).Shortfall() <= 2 * |trxs|
    {
      RecordsConserveFees(runs, stream);
      StreamShortfall(stream, trxs);
    }

    /** Adds to the pending record, or hands that to the repository and opens a new one. */
    method Collect(tx: TrxEvent, db: Answers)
      requires Grouped()
      modifies this, repo, repo.burnContainer
      ensures Grouped() && stream == old(stream) + [tx] && trxs == old(trxs)
      ensures repo.burnContainer == old(repo.burnContainer) || fresh(repo.burnContainer)
    {
      if current.None? {
        OpenRecord(tx);
      } else if tx.blk != current.value.block {
        HandOver(db);
        OpenRecord(tx);
      } else {
        ExtendRecord(tx);
      }
    }

    method OpenRecord(tx: TrxEvent)
      requires Handed(|runs|) && repo.Abstract() == ApplyAll(EMPTY, ops)
      requires runs != [] ==> runs[|runs| - 1][0].blk != tx.blk
      modifies this`current, this`runs, this`stream
      ensures Grouped() && stream == old(stream) + [tx]
    {
      assert Record([tx]) == FtmBurn(tx.blk, tx.ts, tx.fees, [tx.hash]) by {
        RecordExtends(runs, tx);
      }
      current := Some(FtmBurn(tx.blk, tx.ts, tx.fees, [tx.hash]));
      runs := ExtendRuns(runs, stream, tx);
      stream := stream + [tx];
    }

    method ExtendRecord(tx: TrxEvent)
      requires Grouped() && current.Some? && tx.blk == current.value.block
      modifies this`current, this`runs, this`stream
      ensures Grouped() && stream == old(stream) + [tx]
    {
      var burn := current.value;
      assert Record(runs[|runs| - 1] + [tx]) ==
             burn.(fees := burn.fees.Plus(tx.fees), txList := burn.txList + [tx.hash]) by {
        RecordExtends(runs, tx);
      }
      current := Some(burn.(fees := burn.fees.Plus(tx.fees), txList := burn.txList + [tx.hash]));
      runs := ExtendRuns(runs, stream, tx);
      stream := stream + [tx];
    }

    /** Stores the pending record, which stays the current one until it is replaced. */
    method HandOver(db: Answers)
      requires Grouped() && current.Some?
      modifies this`ops, repo, repo.burnContainer
      ensures Handed(|runs|)
      ensures repo.Abstract() == ApplyAll(EMPTY, ops)
      ensures repo.burnContainer == old(repo.burnContainer) || fresh(repo.burnContainer)
    {
      var burn := Burn(current.value.block, current.value.fees.burn);
      var _ := repo.StoreFtmBurn(burn, db);
      assert (ops + [Update(burn, db)])[..|ops|] == ops;
      ops := ops + [Update(burn, db)];
    }

    /** A reader asks for the total between two transactions. */
    method FtmBurnTotal(loadOk: bool) returns (r: Result<int>)
      requires Valid()
      modifies this`ops, repo`burnsSum
      ensures Valid() && stream == old(stream) && ops == old(ops) + [Read(loadOk)]
      ensures r.Ok? ==> r.value == StoredTotal(repo.Abstract()) + Drift(repo.Abstract())
    {
      r := repo.FtmBurnTotal(loadOk);
      assert (ops + [Read(loadOk)])[..|ops|] == ops;
      ops := ops + [Read(loadOk)];
    }
  }

  /** The record of a run of one transaction, and of a run extended by one. */
  lemma RecordExtends(runs: seq<Run>, tx: TrxEvent)
    requires forall i :: 0 <= i < |runs| ==> runs[i] != []
    ensures Record([tx]) == FtmBurn(tx.blk, tx.ts, tx.fees, [tx.hash])
    ensures runs != [] ==>
      var last := runs[|runs| - 1]; var burn := Record(last);
      Record(last + [tx]) == burn.(fees := burn.fees.Plus(tx.fees), txList := burn.txList + [tx.hash])
  {
    assert FeesOf([tx]) == [tx.fees] && Sum([tx.fees]) == Sum([]).Plus(tx.fees);
    assert Hashes([tx]) == [tx.hash];
    if runs != [] {
      var last := runs[|runs| - 1];
      assert FeesOf(last + [tx])[..|last|] == FeesOf(last);
    }
  }
}
