/**
  The ticker totals kept in the tickers collection: incrementing one
  ticker's total minted, resetting every total, and the reconciliation that
  recomputes each total by summing the ticker's stored mint records.
  The collection is a map keyed by the ticker's `tick`.
 */
module Tickers {
  import opened Wrappers
  import opened Brc20

  /**
    A stored mint record: the inscription's tick, and its `amt` field when
    that field holds a number.
   */
  datatype MintDoc = MintDoc(tick: string, amt: Option<int>)

  /**
    Adds `amount` to the total minted of ticker `tick`; a missing ticker
    leaves the collection as it is.
   */
  function IncrementTotalMinted(tickers: map<string, Ticker>, tick: string, amount: int): (r: map<string, Ticker>)
    ensures r.Keys == tickers.Keys
    ensures forall t :: t in tickers && t != tick ==> r[t] == tickers[t]
    ensures tick in tickers ==>
      && r[tick].totalMinted == tickers[tick].totalMinted + amount
      && r[tick].(totalMinted := tickers[tick].totalMinted) == tickers[tick]
    ensures tick !in tickers ==> r == tickers
  {
    if tick in tickers then tickers[tick := tickers[tick].(totalMinted := tickers[tick].totalMinted + amount)]
    else tickers
  }

  /** Sets every ticker's total minted to zero and changes nothing else. */
  function ResetTotalMinted(tickers: map<string, Ticker>): (r: map<string, Ticker>)
    ensures r.Keys == tickers.Keys
    ensures forall t :: t in tickers ==> r[t].totalMinted == 0 && r[t].(totalMinted := tickers[t].totalMinted) == tickers[t]
  {
    map t | t in tickers :: tickers[t].(totalMinted := 0)
  }

  /** The sum of the numeric amounts of the mint records for `tick`; records without one are skipped. */
  function MintedSum(docs: seq<MintDoc>, tick: string): int
    decreases |docs|
  {
    if |docs| == 0 then 0
    else
      var last := docs[|docs| - 1];
      MintedSum(docs[..|docs| - 1], tick) + (if last.tick == tick && last.amt.Some? then last.amt.value else 0)
  }

  /** The reconciliation: every ticker's total minted becomes the sum of its mint records. */
  function RecomputeTotalMinted(tickers: map<string, Ticker>, docs: seq<MintDoc>): (r: map<string, Ticker>)
    ensures r.Keys == tickers.Keys
    ensures forall t :: t in tickers ==> r[t].totalMinted == MintedSum(docs, t)
    ensures forall t :: t in tickers ==> r[t].(totalMinted := tickers[t].totalMinted) == tickers[t]
  {
    map t | t in tickers :: tickers[t].(totalMinted := MintedSum(docs, t))
  }

  /** The incremental path over a list of mint records: each numeric amount is added to its ticker's total. */
  function ReplayIncrements(tickers: map<string, Ticker>, docs: seq<MintDoc>): map<string, Ticker>
    decreases |docs|
  {
    if |docs| == 0 then tickers
    else
      var last := docs[|docs| - 1];
      var prior := ReplayIncrements(tickers, docs[..|docs| - 1]);
      if last.amt.Some? then IncrementTotalMinted(prior, last.tick, last.amt.value) else prior
  }

  /** Recomputing over one more record adds that record's amount to its ticker's total. */
  lemma RecomputeAppend(tickers: map<string, Ticker>, docs: seq<MintDoc>)
    requires |docs| > 0
    ensures var last := docs[|docs| - 1];
      var prior := RecomputeTotalMinted(tickers, docs[..|docs| - 1]);
      RecomputeTotalMinted(tickers, docs) ==
        if last.amt.Some? then IncrementTotalMinted(prior, last.tick, last.amt.value) else prior
  {
  }

  /**
    The reconciliation agrees with the incremental path: recomputing from
    the mint records gives what resetting every total and then adding each
    record's amount in turn gives.
   */
  lemma {:induction false} RecomputeIsReplay(tickers: map<string, Ticker>, docs: seq<MintDoc>)
    ensures RecomputeTotalMinted(tickers, docs) == ReplayIncrements(ResetTotalMinted(tickers), docs)
    decreases |docs|
  {
    if |docs| == 0 {
      assert RecomputeTotalMinted(tickers, docs) == ResetTotalMinted(tickers);
    } else {
      RecomputeIsReplay(tickers, docs[..|docs| - 1]);
      RecomputeAppend(tickers, docs);
    }
  }

  /** The reconciliation ignores the totals it overwrites: resetting first changes nothing. */
  lemma RecomputeAfterReset(tickers: map<string, Ticker>, docs: seq<MintDoc>)
    ensures RecomputeTotalMinted(ResetTotalMinted(tickers), docs) == RecomputeTotalMinted(tickers, docs)
  {
  }
}
