/**
 The repository of known accounts, which keeps the cache and the rows of Accounts in step
 with the events of the account dispatcher.
 */
module AccountServices {
  import opened Accounts

  class Repository {
    var cache: set<Address>
    var rows: map<Address, Row>
    ghost var inserted: seq<Address>  // the rows ever inserted
    ghost var log: seq<Event>         // the events processed without an error

    ghost function Abstract(): State
      reads this
    {
      State(cache, rows, inserted)
    }

    /** A cached account has a row, and the rows count the events processed. */
    ghost predicate Valid()
      reads this
    {
      Coherent(Abstract()) && Counted(Abstract(), log) && InsertedOnce(Abstract())
    }

    constructor ()
      ensures Valid() && Abstract() == Init() && log == []
    {
      cache, rows, inserted, log := {}, map[], [], [];
    }

    /** Cache first, then database: an account is said to be known only if it has a row, and
        always if the look-up is not needed or succeeds. */
    method AccountIsKnown(addr: Address, lookupOk: bool) returns (known: bool)
      requires Valid()
      modifies this`cache
      ensures Valid() && (Abstract(), known) == Accounts.AccountIsKnown(old(Abstract()), addr, lookupOk)
      ensures known ==> addr in rows && addr in cache
      ensures !known && lookupOk ==> addr !in rows
    {
      if addr in cache {
        return true;
      }
      known := lookupOk && addr in rows;
      if known {
        cache := cache + {addr};
      }
    }

    /** Database first, then cache; an existing row refuses another one. */
    method StoreAccount(addr: Address, row: Row, writeOk: bool) returns (ok: bool)
      requires Coherent(Abstract())
      modifies this`cache, this`rows, this`inserted
      ensures (Abstract(), ok) == Accounts.StoreAccount(old(Abstract()), addr, row, writeOk)
      ensures Coherent(Abstract()) && (ok ==> addr !in old(rows))
    {
      if !writeOk || addr in rows {
        return false;
      }
      rows, inserted := rows[addr := row], inserted + [addr];
      cache := cache + {addr};
      return true;
    }

    method AccountMarkActivity(addr: Address, ts: nat, writeOk: bool) returns (ok: bool)
      modifies this`rows
      ensures (Abstract(), ok) == Accounts.AccountMarkActivity(old(Abstract()), addr, ts, writeOk)
    {
      if writeOk && addr in rows {
        rows := rows[addr := Row(ts, rows[addr].counter + 1)];
      }
      return writeOk;
    }

    /** One account event: it is counted by its row exactly if no error is returned. */
    method Process(e: Event) returns (ok: bool)
      requires Valid() && e.Process?
      modifies this
      ensures Valid() && (Abstract(), ok) == Act(old(Abstract()), e)
      ensures log == old(log) + (if ok then [e] else [])
    {
      ghost var before := Abstract();
      var known := AccountIsKnown(e.addr, e.lookupOk);
      if known {
        ok := AccountMarkActivity(e.addr, e.ts, e.writeOk);
      } else if !e.contractOk {
        ok := false;
      } else {
        ok := StoreAccount(e.addr, Row(e.ts, 1), e.writeOk);
      }
      StepCounts(before, e, log);
      log := log + (if ok then [e] else []);
    }

    /** The cache is bounded, and forgets entries on its own. */
    method Evict(addr: Address)
      requires Valid()
      modifies this`cache
      ensures Valid() && Abstract() == Act(old(Abstract()), Event.Evict(addr)).0
    {
      cache := cache - {addr};
    }

    /** Any sequence of events on an empty register: its rows count the events processed. */
    method Execute(es: seq<Event>)
      requires Valid() && Abstract() == Init() && log == []
      modifies this
      ensures Valid() && Abstract() == Run(es) && log == Processed(es)
    {
      for k := 0 to |es|
        invariant Valid() && Abstract() == Run(es[..k]) && log == Processed(es[..k])
      {
        match es[k] {
          case Evict(addr) => Evict(addr);
          case Process(_, _, _, _, _) => var _ := Process(es[k]);
        }
        assert es[..k + 1][..k] == es[..k];
      }
      assert es[..|es|] == es;
    }
  }
}
