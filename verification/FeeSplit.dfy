/** The split of a transaction fee between burning, the treasury and the validators. */
module FeeSplit {
  import opened Wrappers

  const MAX_UINT64: nat := 0xFFFF_FFFF_FFFF_FFFF
  const MAX_INT64: nat := 0x7FFF_FFFF_FFFF_FFFF
  const TREASURY_SINCE_BLOCK: nat := 48552264

  type Uint64 = x: nat | x <= MAX_UINT64

  /** A row of the share table, valid for a range of blocks and of time stamps. */
  datatype Share = Share(
    sinceBlock: nat,
    untilBlock: nat,
    since: int,
    until: int,
    toBurn: nat,
    toTreasury: nat,
    toRewards: nat,
    correction: nat)

  const BURN_TREASURY: seq<Share> := [
    Share(0, 48552263, 0, 1665060100, 300, 0, 700, 1000),
    Share(48552264, MAX_UINT64, 1665060101, MAX_INT64, 200, 100, 700, 1000)
  ]

  predicate AppliesToBlock(s: Share, blk: nat) {
    s.sinceBlock <= blk <= s.untilBlock
  }

  predicate AppliesToTime(s: Share, ts: int) {
    s.since <= ts <= s.until
  }

  /** The row is the first one of the table that applies to the block. */
  ghost predicate FirstForBlock(table: seq<Share>, blk: nat, i: nat) {
    i < |table| && AppliesToBlock(table[i], blk) && forall j :: 0 <= j < i ==> !AppliesToBlock(table[j], blk)
  }

  function ShareByBlock(table: seq<Share>, blk: nat): (r: Option<Share>)
    ensures r.Some? ==> exists i: nat :: FirstForBlock(table, blk, i) && table[i] == r.value
    ensures r.Some? ==> r.value in table
    ensures r.None? ==> forall s :: s in table ==> !AppliesToBlock(s, blk)
  {
    if table == [] then None
    else if AppliesToBlock(table[0], blk) then
      assert FirstForBlock(table, blk, 0);
      Some(table[0])
    else
      var r := ShareByBlock(table[1..], blk);
      assert r.Some? ==> exists i: nat :: FirstForBlock(table, blk, i) && table[i] == r.value by {
        if r.Some? {
          var i: nat :| FirstForBlock(table[1..], blk, i) && table[1..][i] == r.value;
          assert forall j :: 0 < j <= i ==> table[j] == table[1..][j - 1];
          assert FirstForBlock(table, blk, i + 1) && table[i + 1] == r.value;
        }
      }
      r
  }

  ghost predicate FirstForTime(table: seq<Share>, ts: int, i: nat) {
    i < |table| && AppliesToTime(table[i], ts) && forall j :: 0 <= j < i ==> !AppliesToTime(table[j], ts)
  }

  function ShareByTimeStamp(table: seq<Share>, ts: int): (r: Option<Share>)
    ensures r.Some? ==> exists i: nat :: FirstForTime(table, ts, i) && table[i] == r.value
    ensures r.None? ==> forall s :: s in table ==> !AppliesToTime(s, ts)
  {
    if table == [] then None
    else if AppliesToTime(table[0], ts) then
      assert FirstForTime(table, ts, 0);
      Some(table[0])
    else
      var r := ShareByTimeStamp(table[1..], ts);
      assert r.Some? ==> exists i: nat :: FirstForTime(table, ts, i) && table[i] == r.value by {
        if r.Some? {
          var i: nat :| FirstForTime(table[1..], ts, i) && table[1..][i] == r.value;
          assert forall j :: 0 < j <= i ==> table[j] == table[1..][j - 1];
          assert FirstForTime(table, ts, i + 1) && table[i + 1] == r.value;
        }
      }
      r
  }

  datatype Transaction = Transaction(hash: nat, blockNumber: Option<Uint64>, gasPrice: nat, gasUsed: Uint64)

  datatype Fees = Fees(fee: int, treasury: int, burn: int, reward: int) {
    function Plus(other: Fees): Fees {
      Fees(fee + other.fee, treasury + other.treasury, burn + other.burn, reward + other.reward)
    }

    /** The part of the fee that none of the three shares accounts for. */
    function Shortfall(): int {
      fee - (treasury + burn + reward)
    }
  }

  /** The conversion of an unsigned 64-bit number to a signed one. */
  function ToInt64(x: Uint64): int {
    if x <= MAX_INT64 then x else x - MAX_UINT64 - 1
  }

  /** The shares of a fee, each rounded down. */
  function Split(fee: int, s: Share): Fees
    requires s.correction != 0
  {
    Fees(fee, fee * s.toTreasury / s.correction, fee * s.toBurn / s.correction, fee * s.toRewards / s.correction)
  }

  /** A fee outside the table is not split. */
  function SplitAt(fee: int, blk: nat): Fees {
    match ShareByBlock(BURN_TREASURY, blk)
    case None => Fees(fee, 0, 0, 0)
    case Some(s) => Split(fee, s)
  }

  /** `burnedFee`: a pending transaction has not paid anything yet. */
  function BurnedFee(trx: Transaction): Fees {
    if trx.blockNumber.None? then Fees(0, 0, 0, 0)
    else SplitAt(trx.gasPrice * ToInt64(trx.gasUsed), trx.blockNumber.value)
  }

  /** The table covers every block number exactly once, and each row shares out everything. */
  lemma TablePartitionsBlocks(blk: Uint64)
    ensures var old', new' := BURN_TREASURY[0], BURN_TREASURY[1];
            && ShareByBlock(BURN_TREASURY, blk) == Some(if blk < TREASURY_SINCE_BLOCK then old' else new')
            && (AppliesToBlock(old', blk) <==> !AppliesToBlock(new', blk))
    ensures forall s :: s in BURN_TREASURY ==> s.toBurn + s.toTreasury + s.toRewards == s.correction
  {
  }

  /** So does it every time stamp that is not negative. */
  lemma TablePartitionsTime(ts: int)
    requires ts <= MAX_INT64
    ensures ShareByTimeStamp(BURN_TREASURY, ts) ==
            if ts < 0 then None else if ts < 1665060101 then Some(BURN_TREASURY[0]) else Some(BURN_TREASURY[1])
    ensures !(AppliesToTime(BURN_TREASURY[0], ts) && AppliesToTime(BURN_TREASURY[1], ts))
  {
  }

  lemma Tenths(q: int, r: int, k: int)
    requires 0 <= r < 10
    ensures (10 * q + r) * (100 * k) / 1000 == q * k + r * k / 10
  {
    var d, m := r * k / 10, r * k % 10;
    assert (10 * q + r) * (100 * k) == 1000 * (q * k + d) + 100 * m;
  }

  function Lost(fee: int, burn: nat, treasury: nat, rewards: nat): int {
    fee - (fee * treasury / 1000 + fee * burn / 1000 + fee * rewards / 1000)
  }

  lemma LostByDigit(fee: int)
    ensures Lost(fee, 300, 0, 700) == if fee % 10 == 0 then 0 else 1
    ensures Lost(fee, 200, 100, 700) ==
            if fee % 10 == 0 then 0 else if fee % 10 in {4, 7, 8, 9} then 2 else 1
  {
    var q, r := fee / 10, fee % 10;
    Tenths(q, r, 1);
    Tenths(q, r, 2);
    Tenths(q, r, 3);
    Tenths(q, r, 7);
    assert Lost(fee, 300, 0, 700) == r - r * 3 / 10 - r * 7 / 10;
    assert Lost(fee, 200, 100, 700) == r - r / 10 - r * 2 / 10 - r * 7 / 10;
    Digits(r);
  }

  lemma Digits(r: int)
    requires 0 <= r < 10
    ensures r - r * 3 / 10 - r * 7 / 10 == if r == 0 then 0 else 1
    ensures r - r / 10 - r * 2 / 10 - r * 7 / 10 == if r == 0 then 0 else if r in {4, 7, 8, 9} then 2 else 1
  {
  }

  /** What rounding loses of a fee: nothing for a multiple of ten, one wei at most before the
      treasury takes its share, and two only for four of the ten last digits after that. */
  lemma SplitShortfall(fee: int, blk: Uint64)
    ensures SplitAt(fee, blk).fee == fee
    ensures SplitAt(fee, blk).Shortfall() ==
            if fee % 10 == 0 then 0
            else if blk < TREASURY_SINCE_BLOCK then 1
            else if fee % 10 in {4, 7, 8, 9} then 2
            else 1
  {
    TablePartitionsBlocks(blk);
    LostByDigit(fee);
    var s := if blk < TREASURY_SINCE_BLOCK then BURN_TREASURY[0] else BURN_TREASURY[1];
    assert SplitAt(fee, blk) == Split(fee, s);
    assert Split(fee, s).Shortfall() == Lost(fee, s.toBurn, s.toTreasury, s.toRewards);
  }

  /** The largest amount that is worth at most so many tenths of the fee. */
  predicate IsTenths(amount: int, tenths: nat, fee: int) {
    10 * amount <= tenths * fee < 10 * (amount + 1)
  }

  /** Before block 48552264 three tenths of a fee are burned, and nothing goes to the treasury;
      from it on two tenths are burned and one goes to the treasury; seven tenths are the
      validators' reward.  The gas is counted in 63 bits, and a pending transaction pays nothing. */
  lemma SharesOfFee(trx: Transaction)
    ensures trx.blockNumber.None? ==> BurnedFee(trx) == Fees(0, 0, 0, 0)
    ensures trx.blockNumber.Some? ==>
              var fees := BurnedFee(trx);
              var old' := trx.blockNumber.value < 48552264;
              && fees.fee == trx.gasPrice * (if trx.gasUsed <= MAX_INT64 then trx.gasUsed
                                             else trx.gasUsed - 0x1_0000_0000_0000_0000)
              && IsTenths(fees.burn, if old' then 3 else 2, fees.fee)
              && IsTenths(fees.treasury, if old' then 0 else 1, fees.fee)
              && IsTenths(fees.reward, 7, fees.fee)
  {
    if trx.blockNumber.Some? {
      TablePartitionsBlocks(trx.blockNumber.value);
      Thousandths(BurnedFee(trx).fee);
    }
  }

  lemma Thousandths(fee: int)
    ensures IsTenths(fee * 0 / 1000, 0, fee) && IsTenths(fee * 100 / 1000, 1, fee)
    ensures IsTenths(fee * 200 / 1000, 2, fee) && IsTenths(fee * 300 / 1000, 3, fee)
    ensures IsTenths(fee * 700 / 1000, 7, fee)
  {
  }

  /** No transaction is charged more than its fee, nor short-changed by more than two wei. */
  lemma ShortfallBound(trx: Transaction)
    ensures 0 <= BurnedFee(trx).Shortfall() <= 2
  {
    if trx.blockNumber.Some? {
      SplitShortfall(trx.gasPrice * ToInt64(trx.gasUsed), trx.blockNumber.value);
    }
  }
}
