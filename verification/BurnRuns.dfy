/** Collecting the fees of a stream of transactions into one burn record per run of a block. */
module BurnRuns {
  import opened FeeSplit

  /** A dispatched transaction: its block, the time of that, and what it pays. */
  datatype TrxEvent = TrxEvent(blk: nat, ts: nat, hash: nat, fees: Fees)

  datatype FtmBurn = FtmBurn(block: nat, ts: nat, fees: Fees, txList: seq<nat>)

  type Run = seq<TrxEvent>

  function Sum(fees: seq<Fees>): Fees {
    if fees == [] then Fees(0, 0, 0, 0) else Sum(fees[..|fees| - 1]).Plus(fees[|fees| - 1])
  }

  function FeesOf(s: seq<TrxEvent>): seq<Fees> {
    seq(|s|, i requires 0 <= i < |s| => s[i].fees)
  }

  function Total(s: seq<TrxEvent>): Fees {
    Sum(FeesOf(s))
  }

  function Hashes(s: seq<TrxEvent>): seq<nat> {
    seq(|s|, i requires 0 <= i < |s| => s[i].hash)
  }

  function RecordFees(records: seq<FtmBurn>): seq<Fees> {
    seq(|records|, i requires 0 <= i < |records| => records[i].fees)
  }

  /** The record of a run: its block, the time of its first event, all fees and hashes. */
  function Record(run: Run): FtmBurn
    requires run != []
  {
    FtmBurn(run[0].blk, run[0].ts, Total(run), Hashes(run))
  }

  function Flatten<T>(runs: seq<seq<T>>): seq<T> {
    if runs == [] then [] else Flatten(runs[..|runs| - 1]) + runs[|runs| - 1]
  }

  ghost predicate OneBlock(run: Run) {
    run != [] && forall i :: 0 <= i < |run| ==> run[i].blk == run[0].blk
  }

  /** The runs are the maximal stretches of equal block numbers in the stream. */
  ghost predicate MaximalRuns(runs: seq<Run>, stream: seq<TrxEvent>) {
    && Flatten(runs) == stream
    && (forall i :: 0 <= i < |runs| ==> OneBlock(runs[i]))
    && (forall i :: 0 < i < |runs| ==> runs[i - 1][0].blk != runs[i][0].blk)
  }

  function Records(runs: seq<Run>): seq<FtmBurn>
    requires forall i :: 0 <= i < |runs| ==> runs[i] != []
  {
    seq(|runs|, i requires 0 <= i < |runs| => Record(runs[i]))
  }

  lemma {:induction false} SumAppend(a: seq<Fees>, b: seq<Fees>)
    ensures Sum(a + b) == Sum(a).Plus(Sum(b))
  {
    if b == [] {
      assert a + b == a;
    } else {
      SumAppend(a, b[..|b| - 1]);
      assert (a + b)[..|a + b| - 1] == a + b[..|b| - 1];
    }
  }

  /** There is one way only to cut a stream into maximal runs. */
  lemma {:induction false} RunsAreUnique(r1: seq<Run>, r2: seq<Run>, stream: seq<TrxEvent>)
    requires MaximalRuns(r1, stream) && MaximalRuns(r2, stream)
    ensures r1 == r2
  {
    if r1 != [] && r2 != [] {
      SameLastRun(r1, r2, stream);
      SameLastRun(r2, r1, stream);
      var n1, n2 := |r1| - 1, |r2| - 1;
      assert r1[n1] == r2[n2] by {
        assert r1[n1] == stream[|stream| - |r1[n1]|..];
        assert r2[n2] == stream[|stream| - |r2[n2]|..];
      }
      RunsAreUnique(r1[..n1], r2[..n2], stream[..|stream| - |r1[n1]|]);
      assert r1 == r1[..n1] + [r1[n1]];
      assert r2 == r2[..n2] + [r2[n2]];
    }
  }

  lemma LastRun(runs: seq<Run>, stream: seq<TrxEvent>)
    requires MaximalRuns(runs, stream) && runs != []
    ensures var n, l := |stream|, |runs[|runs| - 1]|;
            && 0 < l <= n
            && (forall i :: n - l <= i < n ==> stream[i].blk == stream[n - 1].blk)
            && (l < n ==> stream[n - l - 1].blk != stream[n - 1].blk)
  {
    var init, last := runs[..|runs| - 1], runs[|runs| - 1];
    assert OneBlock(last);
    if init != [] {
      var prev := init[|init| - 1];
      assert prev == runs[|runs| - 2] && OneBlock(prev);
      assert Flatten(init) == Flatten(init[..|init| - 1]) + prev;
      assert stream[|stream| - |last| - 1] == prev[|prev| - 1];
    }
  }

  lemma SameLastRun(r1: seq<Run>, r2: seq<Run>, stream: seq<TrxEvent>)
    requires MaximalRuns(r1, stream) && MaximalRuns(r2, stream)
    requires r1 != [] && r2 != []
    ensures |r1[|r1| - 1]| <= |r2[|r2| - 1]|
  {
    LastRun(r1, stream);
    LastRun(r2, stream);
  }

  /** Opening a run for a new block, or extending the last one, keeps the runs maximal. */
  lemma ExtendRuns(runs: seq<Run>, stream: seq<TrxEvent>, tx: TrxEvent) returns (runs': seq<Run>)
    requires MaximalRuns(runs, stream)
    ensures MaximalRuns(runs', stream + [tx])
    ensures runs' ==
            if runs != [] && runs[|runs| - 1][0].blk == tx.blk
            then runs[..|runs| - 1] + [runs[|runs| - 1] + [tx]]
            else runs + [[tx]]
  {
    if runs != [] && runs[|runs| - 1][0].blk == tx.blk {
      var init, last := runs[..|runs| - 1], runs[|runs| - 1];
      runs' := init + [last + [tx]];
      assert runs'[..|runs'| - 1] == init;
      assert OneBlock(last);
      assert Flatten(runs') == Flatten(init) + last + [tx];
    } else {
      runs' := runs + [[tx]];
      assert runs'[..|runs'| - 1] == runs;
    }
  }

  function AllTxs(records: seq<FtmBurn>): seq<nat> {
    if records == [] then [] else AllTxs(records[..|records| - 1]) + records[|records| - 1].txList
  }

  /** The records carry all the fees of the stream: paid, burned, treasury and rewards. */
  lemma {:induction false} RecordsConserveFees(runs: seq<Run>, stream: seq<TrxEvent>)
    requires MaximalRuns(runs, stream)
    ensures Sum(RecordFees(Records(runs))) == Total(stream)
  {
    if runs != [] {
      var init, last := runs[..|runs| - 1], runs[|runs| - 1];
      var rest := Flatten(init);
      RecordsConserveFees(init, rest);
      var records := Records(runs);
      assert RecordFees(records)[..|runs| - 1] == RecordFees(Records(init));
      SumAppend(FeesOf(rest), FeesOf(last));
      assert FeesOf(rest) + FeesOf(last) == FeesOf(stream);
    }
  }

  /** Their transaction lists, put together, are the stream. */
  lemma {:induction false} RecordsConserveHashes(runs: seq<Run>, stream: seq<TrxEvent>)
    requires MaximalRuns(runs, stream)
    ensures AllTxs(Records(runs)) == Hashes(stream)
  {
    if runs != [] {
      var init, last := runs[..|runs| - 1], runs[|runs| - 1];
      RecordsConserveHashes(init, Flatten(init));
      assert Records(runs)[..|runs| - 1] == Records(init);
      assert Hashes(Flatten(init)) + Hashes(last) == Hashes(stream);
    }
  }

  /** The stream is that of these transactions, each with the fees it pays. */
  ghost predicate StreamOf(stream: seq<TrxEvent>, trxs: seq<Transaction>) {
    && |stream| == |trxs|
    && forall i :: 0 <= i < |trxs| ==> stream[i].hash == trxs[i].hash && stream[i].fees == BurnedFee(trxs[i])
  }

  /** Over a whole stream, rounding loses at most two wei a transaction. */
  lemma StreamShortfall(stream: seq<TrxEvent>, trxs: seq<Transaction>)
    requires StreamOf(stream, trxs)
    ensures 0 <= Total(stream).Shortfall() <= 2 * |stream|
  {
    forall i | 0 <= i < |stream|
      ensures 0 <= stream[i].fees.Shortfall() <= 2
    {
      ShortfallBound(trxs[i]);
    }
    ShortfallAdds(stream);
  }

  lemma {:induction false} ShortfallAdds(stream: seq<TrxEvent>)
    requires forall i :: 0 <= i < |stream| ==> 0 <= stream[i].fees.Shortfall() <= 2
    ensures 0 <= Total(stream).Shortfall() <= 2 * |stream|
  {
    if stream != [] {
      var init := stream[..|stream| - 1];
      ShortfallAdds(init);
      assert FeesOf(stream)[..|stream| - 1] == FeesOf(init);
    }
  }
}
