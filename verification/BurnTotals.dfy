/**
 The running total of burned fees: burn rows and their aggregate in the database, and the
 in-memory container that is meant to track the aggregate.  Amounts are integers; the
 stored ones are in units of 10^9 wei, rounded down.
 */
module BurnTotals {
  import opened Wrappers

  const DECIMALS_CORRECTION: nat := 1_000_000_000
  const RELOAD_PERIOD: nat := 1200

  datatype Burn = Burn(block: nat, wei: int)

  /** The in-memory total, the newest block in it, and the block it is to be reloaded at. */
  datatype Container = Container(block: nat, value: int, nextLoad: nat)

  /** Rows are kept in insertion order; the aggregate row may not exist yet. */
  datatype Totals = Totals(container: Option<Container>, rows: seq<Burn>, aggregate: Option<int>)

  /** How the database answers an update: the request for the total, which the container may
      need, the write of the row, and the increment of the aggregate. */
  datatype Answers = Answers(loadOk: bool, rowOk: bool, incOk: bool)

  const ALL_WELL := Answers(true, true, true)

  /** An update of the burn dispatcher, or a reader of the total. */
  datatype Op = Update(burn: Burn, db: Answers) | Read(loadOk: bool)

  const EMPTY: Totals := Totals(None, [], None)

  /** `Value`: the amount in reduced precision. */
  function Value(b: Burn): int {
    b.wei / DECIMALS_CORRECTION
  }

  // --------------------------------------------------------------- database

  /** The position of the row of a block, or the number of rows. */
  function IndexOf(rows: seq<Burn>, block: nat): (i: nat)
    ensures i <= |rows|
    ensures i < |rows| ==> rows[i].block == block
    ensures forall k :: 0 <= k < i ==> rows[k].block != block
  {
    if rows == [] || rows[0].block == block then 0 else 1 + IndexOf(rows[1..], block)
  }

  predicate Known(rows: seq<Burn>, block: nat) {
    IndexOf(rows, block) < |rows|
  }

  function Upsert(rows: seq<Burn>, b: Burn): seq<Burn> {
    var i := IndexOf(rows, b.block);
    if i < |rows| then rows[i := b] else rows + [b]
  }

  /** `BurnTotal`: a missing aggregate reads as zero, and is created. */
  function LoadTotal(t: Totals): (Totals, int) {
    match t.aggregate
    case None => (t.(aggregate := Some(0)), 0)
    case Some(v) => (t, v)
  }

  /** `StoreBurn`: a new row increments the aggregate, if there is one to increment. */
  function StoreBurn(t: Totals, b: Burn, db: Answers): Totals {
    var t' := t.(rows := Upsert(t.rows, b));
    if !db.rowOk then t
    else if Known(t.rows, b.block) || t.aggregate.None? || !db.incOk then t'
    else t'.(aggregate := Some(t.aggregate.value + Value(b)))
  }

  /** The total as it is stored. */
  function StoredTotal(t: Totals): int {
    if t.aggregate.Some? then t.aggregate.value else 0
  }

  function SumValues(rows: seq<Burn>): int {
    if rows == [] then 0 else SumValues(rows[..|rows| - 1]) + Value(rows[|rows| - 1])
  }

  function SumWei(rows: seq<Burn>): int {
    if rows == [] then 0 else SumWei(rows[..|rows| - 1]) + rows[|rows| - 1].wei
  }

  // ------------------------------------------------------------------ cache

  predicate ReloadDue(t: Totals, b: Burn) {
    t.container.None? || t.container.value.nextLoad <= b.block
  }

  /** `refreshBurnUpdate`: fails for block zero, and when the total can not be loaded. */
  function Refresh(t: Totals, b: Burn, db: Answers): Result<Totals> {
    if b.block == 0 || !db.loadOk then Err
    else
      var (t', v) := LoadTotal(t);
      Ok(t'.(container := Some(Container(b.block - 1, v, b.block + RELOAD_PERIOD))))
  }

  /** `FtmBurnUpdate` once the container is fresh: only a block above its block is added. */
  function AddToContainer(t: Totals, b: Burn): Totals
    requires t.container.Some?
  {
    var c := t.container.value;
    if b.block <= c.block then t
    else t.(container := Some(c.(block := b.block, value := c.value + Value(b))))
  }

  function UpdateCache(t: Totals, b: Burn, db: Answers): Totals {
    if ReloadDue(t, b) then
      match Refresh(t, b, db)
      case Err => t
      case Ok(t') => AddToContainer(t', b)
    else
      AddToContainer(t, b)
  }

  /** `StoreFtmBurn`: the cache first, then the database. */
  function Store(t: Totals, b: Burn, db: Answers): Totals {
    StoreBurn(UpdateCache(t, b, db), b, db)
  }

  /** `FtmBurnTotal`: a reader is served from the container; without one it loads the total,
      which creates a missing aggregate. */
  function Serve(t: Totals, loadOk: bool): Totals {
    if t.container.None? && loadOk then LoadTotal(t).0 else t
  }

  function Apply(t: Totals, op: Op): Totals {
    match op
    case Update(b, db) => Store(t, b, db)
    case Read(loadOk) => Serve(t, loadOk)
  }

  function ApplyAll(t: Totals, ops: seq<Op>): Totals {
    if ops == [] then t else Apply(ApplyAll(t, ops[..|ops| - 1]), ops[|ops| - 1])
  }

  // ------------------------------------------------------------ sum lemmas

  lemma {:induction false} SumsAfterUpdate(rows: seq<Burn>, i: nat, b: Burn)
    requires i < |rows|
    ensures SumValues(rows[i := b]) == SumValues(rows) - Value(rows[i]) + Value(b)
    ensures SumWei(rows[i := b]) == SumWei(rows) - rows[i].wei + b.wei
  {
    var n := |rows| - 1;
    if i == n {
      assert rows[i := b][..n] == rows[..n];
    } else {
      SumsAfterUpdate(rows[..n], i, b);
      assert rows[i := b][..n] == rows[..n][i := b];
    }
  }

  lemma SumsAfterUpsert(rows: seq<Burn>, b: Burn)
    ensures var i := IndexOf(rows, b.block);
            var (oldValue, oldWei) := if i < |rows| then (Value(rows[i]), rows[i].wei) else (0, 0);
            && SumValues(Upsert(rows, b)) == SumValues(rows) - oldValue + Value(b)
            && SumWei(Upsert(rows, b)) == SumWei(rows) - oldWei + b.wei
  {
    var i := IndexOf(rows, b.block);
    if i < |rows| {
      SumsAfterUpdate(rows, i, b);
    } else {
      assert (rows + [b])[..|rows|] == rows;
    }
  }

  /** In wei, the sum of rounded amounts is short of the exact sum by less than 10^9 a row. */
  lemma {:induction false} RoundingOfSums(rows: seq<Burn>)
    ensures SumValues(rows) * DECIMALS_CORRECTION <= SumWei(rows)
    ensures SumWei(rows) <= SumValues(rows) * DECIMALS_CORRECTION + |rows| * (DECIMALS_CORRECTION - 1)
  {
    if rows != [] {
      RoundingOfSums(rows[..|rows| - 1]);
    }
  }

  // ------------------------------------------------------------ cache drift

  /** How far the cached total is from the stored one. */
  function Drift(t: Totals): int {
    if t.container.None? then 0 else t.container.value.value - StoredTotal(t)
  }

  ghost predicate Wellformed(t: Totals) {
    && (t.container.Some? ==> t.aggregate.Some?)
    && (t.container.Some? ==> t.container.value.block < t.container.value.nextLoad)
  }

  /** The container is replaced by a fresh one. */
  predicate Reloads(t: Totals, op: Op) {
    op.Update? && ReloadDue(t, op.burn) && Refresh(t, op.burn, op.db).Ok?
  }

  /** The cache counts every block above the container's, if that is or has been made fresh. */
  predicate CacheCounts(t: Totals, op: Op)
    requires op.Update?
  {
    Reloads(t, op) || (!ReloadDue(t, op.burn) && t.container.value.block < op.burn.block)
  }

  /** The database counts every block it did not have, if it carries out what it is asked. */
  predicate DatabaseCounts(t: Totals, op: Op)
    requires op.Update?
  {
    !Known(t.rows, op.burn.block) && op.db.rowOk && op.db.incOk
  }

  /** What an operation adds to the drift: a block that only the cache counts, or only the
      database. */
  function DriftOf(t: Totals, op: Op): int {
    if op.Read? || (t.container.None? && !Reloads(t, op)) then 0  // readers are served from the database
    else if CacheCounts(t, op) && !DatabaseCounts(t, op) then Value(op.burn)
    else if DatabaseCounts(t, op) && !CacheCounts(t, op) then -Value(op.burn)
    else 0
  }

  /** The drift contributed by each operation since the last reload of the container. */
  function DriftsSinceReload(t: Totals, ops: seq<Op>): seq<int> {
    if ops == [] then []
    else
      var before, op := ApplyAll(t, ops[..|ops| - 1]), ops[|ops| - 1];
      (if Reloads(before, op) then [] else DriftsSinceReload(t, ops[..|ops| - 1])) + [DriftOf(before, op)]
  }

  function SumInts(s: seq<int>): int {
    if s == [] then 0 else SumInts(s[..|s| - 1]) + s[|s| - 1]
  }

  lemma ApplyKeepsWellformed(t: Totals, op: Op)
    requires Wellformed(t)
    ensures Wellformed(Apply(t, op))
  {
  }

  lemma {:induction false} ApplyAllWellformed(t: Totals, ops: seq<Op>)
    requires Wellformed(t)
    ensures Wellformed(ApplyAll(t, ops))
  {
    if ops != [] {
      ApplyAllWellformed(t, ops[..|ops| - 1]);
      ApplyKeepsWellformed(ApplyAll(t, ops[..|ops| - 1]), ops[|ops| - 1]);
    }
  }

  lemma DriftStep(t: Totals, op: Op)
    requires Wellformed(t)
    ensures Drift(Apply(t, op)) == (if Reloads(t, op) then 0 else Drift(t)) + DriftOf(t, op)
  {
  }

  /** The exact distance between the cached and the stored total, for updates in any order,
      with any repeats and readers between, and whatever the database fails to do. */
  lemma {:induction false} DriftIsSumSinceReload(t: Totals, ops: seq<Op>)
    requires Wellformed(t) && Drift(t) == 0
    ensures Drift(ApplyAll(t, ops)) == SumInts(DriftsSinceReload(t, ops))
  {
    if ops != [] {
      var init, op := ops[..|ops| - 1], ops[|ops| - 1];
      DriftIsSumSinceReload(t, init);
      ApplyAllWellformed(t, init);
      DriftStep(ApplyAll(t, init), op);
      var s := DriftsSinceReload(t, ops);
      assert s[..|s| - 1] == if Reloads(ApplyAll(t, init), op) then [] else DriftsSinceReload(t, init);
    }
  }

  /** An operation that is carried out: a reader, or an update of a block above zero of which no
      call fails. */
  ghost predicate Clean(op: Op) {
    op.Read? || (1 <= op.burn.block && op.db == ALL_WELL)
  }

  /** For such updates only blocks count twice that are stored again above the container's block,
      and only new ones at or below it are missed. */
  lemma DriftOfClean(t: Totals, op: Op)
    requires Wellformed(t) && Clean(op) && op.Update?
    ensures var above := ReloadDue(t, op.burn) || t.container.value.block < op.burn.block;
            DriftOf(t, op) ==
            if Known(t.rows, op.burn.block) && above then Value(op.burn)
            else if !Known(t.rows, op.burn.block) && !above then -Value(op.burn)
            else 0
  {
  }

  /** A reload removes any drift exactly when the database counts the block it happens at. */
  lemma ReloadResyncsExactlyWhen(t: Totals, op: Op)
    requires Wellformed(t) && Reloads(t, op)
    ensures Drift(Apply(t, op)) == 0 <==> DatabaseCounts(t, op) || Value(op.burn) == 0
  {
  }

  /** An operation keeps a synchronised cache synchronised exactly when it is a reader, both count
      the burn or neither does, it is worth nothing, or there is no cache yet. */
  lemma SyncKeptExactlyWhen(t: Totals, op: Op)
    requires Wellformed(t) && Drift(t) == 0
    ensures Drift(Apply(t, op)) == 0 <==>
            || op.Read?
            || (CacheCounts(t, op) <==> DatabaseCounts(t, op))
            || Value(op.burn) == 0
            || (t.container.None? && !Reloads(t, op))
  {
  }
}
