/** The stored total against the slow aggregation, and the whole way from a fee to a total. */
module BurnTotalsSafety {
  import opened Wrappers
  import opened BurnTotals
  import BurnRuns

  /** `BurnTotalSlow`: the sum over all rows; there is none to aggregate without rows. */
  function BurnTotalSlow(t: Totals): Result<int> {
    if t.rows == [] then Err else Ok(SumValues(t.rows))
  }

  // ------------------------------------------------------- the running total

  /** How far the running total is from the sum over the rows. */
  function Gap(t: Totals): int {
    StoredTotal(t) - SumValues(t.rows)
  }

  /** The aggregate row exists by the time of an increment, unless no reader made it and the very
      first burn is of block zero or its total can not be loaded. */
  lemma AggregateExistsUnless(t: Totals, b: Burn, db: Answers)
    requires Wellformed(t)
    ensures UpdateCache(t, b, db).aggregate.None? <==> t.aggregate.None? && (b.block == 0 || !db.loadOk)
  {
  }

  /** What an operation adds to the gap: a stored block brings in its change of amount, and a new
      one is lost to the running total when there is nothing to increment or that fails. */
  function GapOf(t: Totals, op: Op): int {
    match op
    case Read(_) => 0
    case Update(b, db) =>
      var i := IndexOf(t.rows, b.block);
      if !db.rowOk then 0
      else if i < |t.rows| then Value(t.rows[i]) - Value(b)
      else if !db.incOk || (t.aggregate.None? && (b.block == 0 || !db.loadOk)) then -Value(b)
      else 0
  }

  lemma GapStep(t: Totals, op: Op)
    requires Wellformed(t)
    ensures Gap(Apply(t, op)) == Gap(t) + GapOf(t, op)
  {
    match op
    case Read(_) =>
    case Update(b, db) =>
      AggregateExistsUnless(t, b, db);
      SumsAfterUpsert(t.rows, b);
      assert UpdateCache(t, b, db).rows == t.rows;
      assert StoredTotal(UpdateCache(t, b, db)) == StoredTotal(t);
  }

  function GapsOf(t: Totals, ops: seq<Op>): (s: seq<int>)
    ensures |s| == |ops|
  {
    if ops == [] then []
    else GapsOf(t, ops[..|ops| - 1]) + [GapOf(ApplyAll(t, ops[..|ops| - 1]), ops[|ops| - 1])]
  }

  /** The exact distance of the running total from the sum over the rows, for any operations and
      whatever the database fails to do. */
  lemma {:induction false} GapIsSum(t: Totals, ops: seq<Op>)
    requires Wellformed(t)
    ensures Gap(ApplyAll(t, ops)) == Gap(t) + SumInts(GapsOf(t, ops))
  {
    if ops != [] {
      var init := ops[..|ops| - 1];
      GapIsSum(t, init);
      ApplyAllWellformed(t, init);
      GapStep(ApplyAll(t, init), ops[|ops| - 1]);
      assert GapsOf(t, ops)[..|init|] == GapsOf(t, init);
    }
  }

  /** From an empty database, whether a reader was served before or not, exactly when the first
      burn is counted, if it is stored at all. */
  lemma FirstBurnCounted(served: bool, b: Burn, db: Answers)
    ensures Gap(Store(Serve(EMPTY, served), b, db)) == 0 <==>
            || !db.rowOk
            || Value(b) == 0
            || (db.incOk && (served || (1 <= b.block && db.loadOk)))
  {
    GapStep(Serve(EMPTY, served), Update(b, db));
  }

  // ------------------------------------------------- operations that succeed

  ghost predicate AllClean(ops: seq<Op>) {
    forall i :: 0 <= i < |ops| ==> Clean(ops[i])
  }

  /** The burns of the updates, in order. */
  function Burns(ops: seq<Op>): seq<Burn> {
    if ops == [] then []
    else
      var before, op := Burns(ops[..|ops| - 1]), ops[|ops| - 1];
      if op.Update? then before + [op.burn] else before
  }

  /** Whenever a block is stored again, its amount is what it was. */
  ghost predicate Consistent(burns: seq<Burn>) {
    forall i, j :: 0 <= i < |burns| && 0 <= j < |burns| && burns[i].block == burns[j].block ==>
      Value(burns[i]) == Value(burns[j])
  }

  lemma UpsertAddsOnly(rows: seq<Burn>, b: Burn, row: Burn)
    requires row in Upsert(rows, b)
    ensures row == b || row in rows
  {
  }

  /** Every row is one of the burns stored. */
  lemma {:induction false} RowsAreBurns(ops: seq<Op>, row: Burn)
    requires row in ApplyAll(EMPTY, ops).rows
    ensures row in Burns(ops)
  {
    if ops != [] {
      var init, op := ops[..|ops| - 1], ops[|ops| - 1];
      var t := ApplyAll(EMPTY, init);
      RowsOfStep(t, op);
      if op.Update? && op.db.rowOk {
        UpsertAddsOnly(t.rows, op.burn, row);
      }
      if row in t.rows {
        RowsAreBurns(init, row);
      }
    }
  }

  lemma RowsOfStep(t: Totals, op: Op)
    ensures Apply(t, op).rows == if op.Update? && op.db.rowOk then Upsert(t.rows, op.burn) else t.rows
  {
  }

  lemma RestoredUnchanged(ops: seq<Op>)
    requires ops != [] && ops[|ops| - 1].Update? && Consistent(Burns(ops))
    ensures var rows, b := ApplyAll(EMPTY, ops[..|ops| - 1]).rows, ops[|ops| - 1].burn;
            Known(rows, b.block) ==> Value(rows[IndexOf(rows, b.block)]) == Value(b)
  {
    var init, b := ops[..|ops| - 1], ops[|ops| - 1].burn;
    var rows := ApplyAll(EMPTY, init).rows;
    if Known(rows, b.block) {
      var row := rows[IndexOf(rows, b.block)];
      RowsAreBurns(init, row);
      var k :| 0 <= k < |Burns(init)| && Burns(init)[k] == row;
      assert Burns(ops)[k] == row && Burns(ops)[|Burns(init)|] == b;
    }
  }

  lemma ConsistentPrefix(burns: seq<Burn>, more: seq<Burn>)
    requires Consistent(burns + more)
    ensures Consistent(burns)
  {
    assert forall i :: 0 <= i < |burns| ==> burns[i] == (burns + more)[i];
  }

  /** The running total loses no increment when blocks are stored again unchanged. */
  lemma {:induction false} NoGap(ops: seq<Op>)
    requires AllClean(ops) && Consistent(Burns(ops))
    ensures Gap(ApplyAll(EMPTY, ops)) == 0
  {
    if ops != [] {
      var init, op := ops[..|ops| - 1], ops[|ops| - 1];
      if op.Update? {
        ConsistentPrefix(Burns(init), [op.burn]);
      }
      NoGap(init);
      ApplyAllWellformed(EMPTY, init);
      GapStep(ApplyAll(EMPTY, init), op);
      if op.Update? {
        RestoredUnchanged(ops);
      }
    }
  }

  /** Exactly the blocks stored have rows. */
  lemma {:induction false} RowsOfBlocks(ops: seq<Op>, block: nat)
    requires AllClean(ops)
    ensures Known(ApplyAll(EMPTY, ops).rows, block) <==> Known(Burns(ops), block)
    ensures ApplyAll(EMPTY, ops).rows == [] <==> Burns(ops) == []
  {
    if ops != [] {
      var init, op := ops[..|ops| - 1], ops[|ops| - 1];
      RowsOfBlocks(init, block);
      RowsOfStep(ApplyAll(EMPTY, init), op);
      if op.Update? {
        KnownAfterUpsert(ApplyAll(EMPTY, init).rows, op.burn, block);
        KnownAfterAppend(Burns(init), op.burn, block);
      }
    }
  }

  lemma KnownIs(rows: seq<Burn>, block: nat)
    ensures Known(rows, block) <==> exists i :: 0 <= i < |rows| && rows[i].block == block
  {
  }

  lemma KnownAfterAppend(rows: seq<Burn>, b: Burn, block: nat)
    ensures Known(rows + [b], block) <==> Known(rows, block) || b.block == block
  {
    KnownIs(rows, block);
    KnownIs(rows + [b], block);
    assert (rows + [b])[|rows|] == b;
    assert forall i :: 0 <= i < |rows| ==> (rows + [b])[i] == rows[i];
  }

  lemma KnownAfterUpsert(rows: seq<Burn>, b: Burn, block: nat)
    ensures Known(Upsert(rows, b), block) <==> Known(rows, block) || b.block == block
  {
    var i := IndexOf(rows, b.block);
    if i < |rows| {
      KnownIs(rows, block);
      KnownIs(rows[i := b], block);
      assert rows[i := b][i] == b;
      assert forall k :: 0 <= k < |rows| ==> rows[i := b][k].block == rows[k].block;
    } else {
      KnownAfterAppend(rows, b, block);
    }
  }

  /** So the running total is the slow aggregation over all the rows. */
  lemma StoredTotalIsSlowTotal(ops: seq<Op>)
    requires AllClean(ops) && Consistent(Burns(ops))
    ensures BurnTotalSlow(ApplyAll(EMPTY, ops)) ==
            if Burns(ops) == [] then Err else Ok(StoredTotal(ApplyAll(EMPTY, ops)))
  {
    NoGap(ops);
    RowsOfBlocks(ops, 0);
  }

  /** In wei, the running total is at most the exact one, and short of it by less than 10^9 for
      every stored block. */
  lemma StoredTotalBounds(ops: seq<Op>)
    requires AllClean(ops) && Consistent(Burns(ops))
    ensures var t := ApplyAll(EMPTY, ops);
            StoredTotal(t) * 1_000_000_000 <= SumWei(t.rows)
            <= StoredTotal(t) * 1_000_000_000 + |t.rows| * 999_999_999
  {
    NoGap(ops);
    RoundingOfSums(ApplyAll(EMPTY, ops).rows);
  }

  /** While less than 2^63 * 10^9 wei was burned, no amount and no total leaves 64 bits. */
  lemma {:induction false} AmountsFit(rows: seq<Burn>)
    requires forall b :: b in rows ==> 0 <= b.wei
    requires SumWei(rows) < 0x8000_0000_0000_0000 * 1_000_000_000
    ensures 0 <= SumValues(rows) < 0x8000_0000_0000_0000
    ensures forall b :: b in rows ==> 0 <= Value(b) <= SumValues(rows)
  {
    RoundingOfSums(rows);
    if rows != [] {
      assert 0 <= SumWei(rows[..|rows| - 1]) by {
        SumWeiNatural(rows[..|rows| - 1]);
      }
      AmountsFit(rows[..|rows| - 1]);
    }
  }

  lemma {:induction false} SumWeiNatural(rows: seq<Burn>)
    requires forall b :: b in rows ==> 0 <= b.wei
    ensures 0 <= SumWei(rows)
  {
    if rows != [] {
      SumWeiNatural(rows[..|rows| - 1]);
    }
  }

  // ----------------------------------------------------------------- reloads

  /** An update that has to load the total, and can: the first one, or one at least 1200 blocks
      after the one that loaded it last. */
  predicate LoadsTotal(last: Option<nat>, op: Op) {
    && op.Update? && 1 <= op.burn.block && op.db.loadOk
    && (last.Some? ==> last.value + 1200 <= op.burn.block)
  }

  /** The block at which the total was last loaded into the container. */
  function LastLoad(ops: seq<Op>): Option<nat> {
    if ops == [] then None
    else
      var last, op := LastLoad(ops[..|ops| - 1]), ops[|ops| - 1];
      if LoadsTotal(last, op) then Some(op.burn.block) else last
  }

  /** The container is loaded for the first update of a block above zero, and again with the first
      one 1200 blocks later, as soon as the database answers; and at no other time. */
  lemma {:induction false} ReloadsExactlyWhen(ops: seq<Op>, op: Op)
    ensures var t := ApplyAll(EMPTY, ops);
            && (t.container.Some? <==> LastLoad(ops).Some?)
            && (t.container.Some? ==> t.container.value.nextLoad == LastLoad(ops).value + 1200)
            && (Reloads(t, op) <==> LoadsTotal(LastLoad(ops), op))
  {
    if ops != [] {
      ReloadsExactlyWhen(ops[..|ops| - 1], ops[|ops| - 1]);
    }
  }

  /** So 1200 blocks after a load, whatever happened in between, the next new block that is stored
      without a failure brings the two totals together again. */
  lemma DriftEndsAfter1200(ops: seq<Op>, burn: Burn)
    requires LastLoad(ops).Some? && LastLoad(ops).value + 1200 <= burn.block
    requires !Known(ApplyAll(EMPTY, ops).rows, burn.block)
    ensures Drift(ApplyAll(EMPTY, ops + [Update(burn, ALL_WELL)])) == 0
  {
    var op := Update(burn, ALL_WELL);
    ReloadsExactlyWhen(ops, op);
    ApplyAllWellformed(EMPTY, ops);
    ReloadResyncsExactlyWhen(ApplyAll(EMPTY, ops), op);
    assert (ops + [op])[..|ops|] == ops;
  }

  // --------------------------------------------------------- the cached total

  function Newest(burns: seq<Burn>): nat {
    if burns == [] then 0
    else
      var before, b := Newest(burns[..|burns| - 1]), burns[|burns| - 1];
      if b.block > before then b.block else before
  }

  /** A block that comes for the first time after a newer one. */
  predicate Late(burns: seq<Burn>, b: Burn) {
    !Known(burns, b.block) && b.block < Newest(burns)
  }

  /** The late burns since the container was last reloaded. */
  function LateBurns(ops: seq<Op>): seq<Burn> {
    if ops == [] then []
    else
      var init, op := ops[..|ops| - 1], ops[|ops| - 1];
      if Reloads(ApplyAll(EMPTY, init), op) then []
      else if op.Update? && Late(Burns(init), op.burn) then LateBurns(init) + [op.burn]
      else LateBurns(init)
  }

  lemma {:induction false} NewestIsLargest(burns: seq<Burn>, i: nat)
    requires i < |burns|
    ensures burns[i].block <= Newest(burns)
    ensures Known(burns, Newest(burns))
  {
    var n := |burns| - 1;
    var init := burns[..n];
    assert burns == init + [burns[n]];
    KnownAfterAppend(init, burns[n], Newest(burns));
    if i < n {
      NewestIsLargest(init, i);
    } else if n > 0 {
      NewestIsLargest(init, 0);
    }
  }

  lemma KnownAreNotNewer(burns: seq<Burn>, block: nat)
    requires Known(burns, block)
    ensures block <= Newest(burns)
  {
    NewestIsLargest(burns, IndexOf(burns, block));
  }

  /** The container's block is the newest one stored. */
  ghost predicate ContainerIsNewest(t: Totals, burns: seq<Burn>) {
    if burns == [] then t.container.None?
    else t.container.Some? && t.container.value.block == Newest(burns)
  }

  lemma {:induction false} ContainerFollows(ops: seq<Op>)
    requires AllClean(ops)
    ensures ContainerIsNewest(ApplyAll(EMPTY, ops), Burns(ops))
  {
    if ops != [] {
      var init, op := ops[..|ops| - 1], ops[|ops| - 1];
      ContainerFollows(init);
      ApplyAllWellformed(EMPTY, init);
      if op.Update? {
        var burns := Burns(init);
        assert (burns + [op.burn])[..|burns|] == burns;
        ContainerStep(ApplyAll(EMPTY, init), op, burns);
      }
    }
  }

  lemma ContainerStep(t: Totals, op: Op, burns: seq<Burn>)
    requires Wellformed(t) && Clean(op) && op.Update? && ContainerIsNewest(t, burns)
    requires (burns + [op.burn])[..|burns|] == burns
    ensures ContainerIsNewest(Apply(t, op), burns + [op.burn])
  {
  }

  /** An update that succeeds contributes to the drift exactly if its block is late. */
  lemma DriftOfLate(t: Totals, op: Op, burns: seq<Burn>)
    requires Wellformed(t) && Clean(op) && op.Update? && ContainerIsNewest(t, burns)
    requires Known(t.rows, op.burn.block) <==> Known(burns, op.burn.block)
    ensures DriftOf(t, op) == if Late(burns, op.burn) then -Value(op.burn) else 0
    ensures Reloads(t, op) ==> !Late(burns, op.burn)
  {
    if Known(burns, op.burn.block) {
      KnownAreNotNewer(burns, op.burn.block);
    } else if burns != [] {
      NewestIsLargest(burns, 0);
    }
  }

  lemma DriftAfter(ops: seq<Op>, op: Op)
    requires AllClean(ops) && Clean(op)
    ensures var t, late := ApplyAll(EMPTY, ops), op.Update? && Late(Burns(ops), op.burn);
            && DriftOf(t, op) == (if late then -Value(op.burn) else 0)
            && Drift(Apply(t, op)) == (if Reloads(t, op) then 0 else Drift(t)) + DriftOf(t, op)
            && (Reloads(t, op) ==> !late)
  {
    var t := ApplyAll(EMPTY, ops);
    ApplyAllWellformed(EMPTY, ops);
    DriftStep(t, op);
    if op.Update? {
      ContainerFollows(ops);
      RowsOfBlocks(ops, op.burn.block);
      DriftOfLate(t, op, Burns(ops));
    }
  }

  /** The cached total lacks exactly the late burns since the last reload. */
  lemma {:induction false} DriftIsLateBurns(ops: seq<Op>)
    requires AllClean(ops)
    ensures Drift(ApplyAll(EMPTY, ops)) == -SumValues(LateBurns(ops))
  {
    if ops != [] {
      var init, op := ops[..|ops| - 1], ops[|ops| - 1];
      DriftIsLateBurns(init);
      DriftAfter(init, op);
      if op.Update? && Late(Burns(init), op.burn) {
        assert LateBurns(ops)[..|LateBurns(init)|] == LateBurns(init);
      }
    }
  }

  lemma {:induction false} SumOfNatural(rows: seq<Burn>)
    requires forall b :: b in rows ==> 0 <= b.wei
    ensures 0 <= SumValues(rows)
    ensures SumValues(rows) == 0 <==> forall b :: b in rows ==> Value(b) == 0
  {
    if rows != [] {
      var n := |rows| - 1;
      assert rows == rows[..n] + [rows[n]];
      SumOfNatural(rows[..n]);
    }
  }

  lemma {:induction false} LateAreBurns(ops: seq<Op>, b: Burn)
    requires b in LateBurns(ops)
    ensures b in Burns(ops)
  {
    if ops != [] && b in LateBurns(ops[..|ops| - 1]) {
      LateAreBurns(ops[..|ops| - 1], b);
    }
  }

  /** So it never exceeds the stored total, and equals it exactly when no late burn since the last
      reload is worth anything. */
  lemma InSyncExactlyWhen(ops: seq<Op>)
    requires AllClean(ops) && forall b :: b in Burns(ops) ==> 0 <= b.wei
    ensures Drift(ApplyAll(EMPTY, ops)) <= 0
    ensures Drift(ApplyAll(EMPTY, ops)) == 0 <==> forall b :: b in LateBurns(ops) ==> Value(b) == 0
  {
    DriftIsLateBurns(ops);
    forall b | b in LateBurns(ops)
      ensures 0 <= b.wei
    {
      LateAreBurns(ops, b);
    }
    SumOfNatural(LateBurns(ops));
  }

  /** The two totals agree after each of the operations. */
  predicate AlwaysInSync(ops: seq<Op>) {
    Drift(ApplyAll(EMPTY, ops)) == 0 && (ops != [] ==> AlwaysInSync(ops[..|ops| - 1]))
  }

  /** No burn worth anything is late. */
  predicate NeverLate(burns: seq<Burn>) {
    burns == [] ||
    (var before, b := burns[..|burns| - 1], burns[|burns| - 1];
     NeverLate(before) && (Late(before, b) ==> Value(b) == 0))
  }

  /** That is so exactly when blocks come for the first time in ascending order, but for those
      worth nothing. */
  lemma {:induction false} AlwaysInSyncExactlyWhen(ops: seq<Op>)
    requires AllClean(ops)
    ensures AlwaysInSync(ops) <==> NeverLate(Burns(ops))
  {
    if ops != [] {
      var init, op := ops[..|ops| - 1], ops[|ops| - 1];
      AlwaysInSyncExactlyWhen(init);
      DriftAfter(init, op);
      if op.Update? {
        assert Burns(ops)[..|Burns(init)|] == Burns(init) && Burns(ops)[|Burns(init)|] == op.burn;
      }
    }
  }

  /** Blocks 5, 7 and 6, as cached heads are unloaded: the cached total lacks block 6. */
  lemma OutOfOrderExample(w5: nat, w6: nat, w7: nat)
    ensures var ops := [Update(Burn(5, w5), ALL_WELL), Update(Burn(7, w7), ALL_WELL), Update(Burn(6, w6), ALL_WELL)];
            Drift(ApplyAll(EMPTY, ops)) == -Value(Burn(6, w6))
  {
    var a, b, c := Update(Burn(5, w5), ALL_WELL), Update(Burn(7, w7), ALL_WELL), Update(Burn(6, w6), ALL_WELL);
    assert [a, b, c][..2] == [a, b] && [a, b][..1] == [a] && [a][..0] == [];
    assert Burns([a]) == [a.burn] && Burns([a, b]) == [a.burn, b.burn];
    assert [a.burn, b.burn][..1] == [a.burn] && [a.burn][..0] == [];
    assert Newest([a.burn]) == 5 && Newest([a.burn, b.burn]) == 7;
    assert !Known([a.burn, b.burn], 6) by {
      KnownIs([a.burn, b.burn], 6);
    }
    DriftAfter([], a);
    DriftAfter([a], b);
    DriftAfter([a, b], c);
    assert ApplyAll(EMPTY, [a, b, c]) == Apply(ApplyAll(EMPTY, [a, b]), c);
  }

  /** Burns that are all of different blocks are the rows. */
  lemma {:induction false} DistinctAreRows(ops: seq<Op>)
    requires AllClean(ops)
    requires forall i, j :: 0 <= i < j < |Burns(ops)| ==> Burns(ops)[i].block != Burns(ops)[j].block
    ensures ApplyAll(EMPTY, ops).rows == Burns(ops)
  {
    if ops != [] {
      var init, op := ops[..|ops| - 1], ops[|ops| - 1];
      var burns := Burns(init);
      assert forall i :: 0 <= i < |burns| ==> Burns(ops)[i] == burns[i];
      DistinctAreRows(init);
      RowsOfStep(ApplyAll(EMPTY, init), op);
      if op.Update? {
        assert Burns(ops)[|burns|] == op.burn;
        assert !Known(burns, op.burn.block);
      }
    }
  }

  ghost predicate Ascending(burns: seq<Burn>) {
    forall i, j :: 0 <= i < j < |burns| ==> burns[i].block < burns[j].block
  }

  lemma {:induction false} LastIsNewest(burns: seq<Burn>)
    requires Ascending(burns) && burns != []
    ensures Newest(burns) == burns[|burns| - 1].block
  {
    var n := |burns| - 1;
    if n > 0 {
      LastIsNewest(burns[..n]);
    }
  }

  lemma {:induction false} AscendingAreNotLate(ops: seq<Op>)
    requires Ascending(Burns(ops))
    ensures LateBurns(ops) == []
  {
    if ops != [] {
      var init, op := ops[..|ops| - 1], ops[|ops| - 1];
      AscendingPrefix(Burns(init), op);
      AscendingAreNotLate(init);
    }
  }

  lemma AscendingPrefix(burns: seq<Burn>, op: Op)
    requires Ascending(if op.Update? then burns + [op.burn] else burns)
    ensures Ascending(burns)
    ensures op.Update? ==> !Late(burns, op.burn)
  {
    if op.Update? {
      var all := burns + [op.burn];
      assert forall i :: 0 <= i < |burns| ==> all[i] == burns[i];
      assert all[|burns|] == op.burn;
      if burns != [] {
        LastIsNewest(burns);
      }
    }
  }

  /** Burns of ascending blocks are stored one by one, and at every point the cached total, the
      stored total and the slow total agree. */
  lemma AscendingStaysInSync(ops: seq<Op>)
    requires AllClean(ops) && Ascending(Burns(ops))
    ensures var t := ApplyAll(EMPTY, ops);
            Drift(t) == 0 && Gap(t) == 0 && t.rows == Burns(ops)
  {
    AscendingAreNotLate(ops);
    DriftIsLateBurns(ops);
    NoGap(ops);
    DistinctAreRows(ops);
  }

  // ------------------------------------------------------------- end to end

  /** The updates the burn dispatcher's records cause. */
  function OpsOf(records: seq<BurnRuns.FtmBurn>): (ops: seq<Op>)
    ensures |ops| == |records|
  {
    seq(|records|, i requires 0 <= i < |records| => Update(BurnOf(records[i]), ALL_WELL))
  }

  function BurnOf(record: BurnRuns.FtmBurn): Burn {
    Burn(record.block, record.fees.burn)
  }

  lemma {:induction false} BurnsOfRecords(records: seq<BurnRuns.FtmBurn>)
    ensures |Burns(OpsOf(records))| == |records|
    ensures forall i :: 0 <= i < |records| ==> Burns(OpsOf(records))[i] == BurnOf(records[i])
  {
    if records != [] {
      var n := |records| - 1;
      BurnsOfRecords(records[..n]);
      assert OpsOf(records)[..n] == OpsOf(records[..n]);
    }
  }

  lemma {:induction false} SumWeiIsBurned(records: seq<BurnRuns.FtmBurn>)
    ensures SumWei(Burns(OpsOf(records))) == BurnRuns.Sum(BurnRuns.RecordFees(records)).burn
  {
    if records != [] {
      var n := |records| - 1;
      SumWeiIsBurned(records[..n]);
      assert OpsOf(records)[..n] == OpsOf(records[..n]);
      var burns := Burns(OpsOf(records[..n]));
      assert Burns(OpsOf(records)) == burns + [BurnOf(records[n])];
      assert (burns + [BurnOf(records[n])])[..|burns|] == burns;
      assert BurnRuns.RecordFees(records)[..n] == BurnRuns.RecordFees(records[..n]);
    }
  }

  /** The records handed over: all but the pending one. */
  function Handed(runs: seq<BurnRuns.Run>): seq<BurnRuns.FtmBurn>
    requires runs != [] && forall i :: 0 <= i < |runs| ==> runs[i] != []
  {
    BurnRuns.Records(runs)[..|runs| - 1]
  }

  ghost predicate AboveZero(stream: seq<BurnRuns.TrxEvent>) {
    forall i :: 0 <= i < |stream| ==> 1 <= stream[i].blk
  }

  lemma {:induction false} RunsAboveZero(runs: seq<BurnRuns.Run>, stream: seq<BurnRuns.TrxEvent>)
    requires BurnRuns.MaximalRuns(runs, stream) && AboveZero(stream)
    ensures forall i :: 0 <= i < |runs| ==> 1 <= runs[i][0].blk
  {
    if runs != [] {
      var init, last := runs[..|runs| - 1], runs[|runs| - 1];
      var rest := BurnRuns.Flatten(init);
      assert rest == stream[..|rest|];
      RunsAboveZero(init, rest);
      assert last[0] == stream[|rest|];
      assert forall i :: 0 <= i < |init| ==> runs[i] == init[i];
    }
  }

  /** From fees to totals, for blocks in any order and with any repeats: once all records but the
      pending one are stored, with unchanged amounts for repeated blocks, the running total is the
      slow one, within 10^9 wei a block of what the stored blocks burned, and the cached total
      lacks exactly the late burns. */
  lemma StreamToTotals(stream: seq<BurnRuns.TrxEvent>, runs: seq<BurnRuns.Run>)
    requires BurnRuns.MaximalRuns(runs, stream) && runs != [] && AboveZero(stream)
    requires Consistent(Burns(OpsOf(Handed(runs))))
    ensures var ops := OpsOf(Handed(runs));
            var t := ApplyAll(EMPTY, ops);
            && Gap(t) == 0
            && StoredTotal(t) * 1_000_000_000 <= SumWei(t.rows)
               <= StoredTotal(t) * 1_000_000_000 + |t.rows| * 999_999_999
            && Drift(t) == -SumValues(LateBurns(ops))
  {
    HandedAreClean(stream, runs);
    var ops := OpsOf(Handed(runs));
    NoGap(ops);
    StoredTotalBounds(ops);
    DriftIsLateBurns(ops);
  }

  lemma HandedAreClean(stream: seq<BurnRuns.TrxEvent>, runs: seq<BurnRuns.Run>)
    requires BurnRuns.MaximalRuns(runs, stream) && runs != [] && AboveZero(stream)
    ensures AllClean(OpsOf(Handed(runs)))
  {
    RunsAboveZero(runs, stream);
  }

  /** If all runs are of different blocks, what the stored blocks burned is what the stream did,
      less the pending record. */
  lemma DistinctStreamToTotals(stream: seq<BurnRuns.TrxEvent>, runs: seq<BurnRuns.Run>)
    requires BurnRuns.MaximalRuns(runs, stream) && runs != [] && AboveZero(stream)
    requires forall i, j :: 0 <= i < j < |runs| ==> runs[i][0].blk != runs[j][0].blk
    ensures var ops := OpsOf(Handed(runs));
            var burned := BurnRuns.Total(stream).burn - BurnRuns.Record(runs[|runs| - 1]).fees.burn;
            Consistent(Burns(ops)) && SumWei(ApplyAll(EMPTY, ops).rows) == burned
  {
    HandedAreClean(stream, runs);
    BurnsOfRecords(Handed(runs));
    DistinctAreRows(OpsOf(Handed(runs)));
    BurnedByHanded(stream, runs);
  }

  lemma BurnedByHanded(stream: seq<BurnRuns.TrxEvent>, runs: seq<BurnRuns.Run>)
    requires BurnRuns.MaximalRuns(runs, stream) && runs != []
    ensures SumWei(Burns(OpsOf(Handed(runs)))) ==
            BurnRuns.Total(stream).burn - BurnRuns.Record(runs[|runs| - 1]).fees.burn
  {
    var records := BurnRuns.Records(runs);
    SumWeiIsBurned(Handed(runs));
    BurnRuns.RecordsConserveFees(runs, stream);
    assert BurnRuns.RecordFees(records)[..|records| - 1] == BurnRuns.RecordFees(Handed(runs));
  }

  ghost predicate BlocksInOrder(stream: seq<BurnRuns.TrxEvent>) {
    AboveZero(stream) && forall i, j :: 0 <= i <= j < |stream| ==> stream[i].blk <= stream[j].blk
  }

  lemma LastRunsAscend(runs: seq<BurnRuns.Run>, stream: seq<BurnRuns.TrxEvent>)
    requires BurnRuns.MaximalRuns(runs, stream) && BlocksInOrder(stream) && |runs| > 1
    ensures runs[|runs| - 2][0].blk < runs[|runs| - 1][0].blk
  {
    var init, last := runs[..|runs| - 1], runs[|runs| - 1];
    var rest, prev := BurnRuns.Flatten(init), init[|init| - 1];
    assert BurnRuns.OneBlock(prev) && BurnRuns.OneBlock(last);
    assert rest == BurnRuns.Flatten(init[..|init| - 1]) + prev;
    assert stream[|rest| - 1] == prev[|prev| - 1] && stream[|rest|] == last[0];
  }

  lemma {:induction false} RunsAscend(runs: seq<BurnRuns.Run>, stream: seq<BurnRuns.TrxEvent>)
    requires BurnRuns.MaximalRuns(runs, stream) && BlocksInOrder(stream)
    ensures forall i :: 0 <= i < |runs| ==> 1 <= runs[i][0].blk
    ensures forall i, j :: 0 <= i < j < |runs| ==> runs[i][0].blk < runs[j][0].blk
  {
    if runs != [] {
      var init, last := runs[..|runs| - 1], runs[|runs| - 1];
      var rest := BurnRuns.Flatten(init);
      RunsAscend(init, rest) by {
        assert rest == stream[..|rest|];
      }
      assert last[0] == stream[|rest|] by {
        assert BurnRuns.OneBlock(last);
      }
      if |runs| > 1 {
        LastRunsAscend(runs, stream);
      }
      assert forall i :: 0 <= i < |init| ==> runs[i] == init[i];
    }
  }

  /** When blocks come in order the three totals agree, and are within 10^9 wei a block of what
      those stored burned. */
  lemma InOrderStreamToTotals(stream: seq<BurnRuns.TrxEvent>, runs: seq<BurnRuns.Run>)
    requires BlocksInOrder(stream) && BurnRuns.MaximalRuns(runs, stream) && runs != []
    ensures var t := ApplyAll(EMPTY, OpsOf(Handed(runs)));
            var burned := BurnRuns.Total(stream).burn - BurnRuns.Record(runs[|runs| - 1]).fees.burn;
            && Drift(t) == 0 && Gap(t) == 0
            && StoredTotal(t) * 1_000_000_000 <= burned
               <= StoredTotal(t) * 1_000_000_000 + (|runs| - 1) * 999_999_999
  {
    RunsAscend(runs, stream);
    DistinctStreamToTotals(stream, runs);
    StreamToTotals(stream, runs);
    BurnsOfRecords(Handed(runs));
    HandedAreClean(stream, runs);
    AscendingStaysInSync(OpsOf(Handed(runs)));
  }
}
