/**
  Supply accounting across a run of mints: each inscription goes through the
  mint validator and, when accepted, its credited amount is added to the
  ticker's total minted. Over any sequence of mints the total never passes
  the maximum supply, and it stays equal to the sum of the ticker's accepted
  mint records.
 */
module Supply {
  import opened Wrappers
  import opened Brc20
  import opened Mint
  import opened Tickers

  /** A mint inscription together with the transaction carrying it. */
  datatype MintOp = MintOp(tx: Tx, mint: Inscription)

  /** No ticker has minted past its maximum supply. */
  predicate CapHolds(tickers: map<string, Ticker>)
  {
    forall t :: t in tickers ==> tickers[t].totalMinted <= tickers[t].maxSupply
  }

  /** The credited amounts of a list of accepted mints, summed. */
  function CreditedSum(mints: seq<MintTx>): int
    decreases |mints|
  {
    if |mints| == 0 then 0 else CreditedSum(mints[..|mints| - 1]) + mints[|mints| - 1].amount
  }

  /** The stored records of a ticker's accepted mints, each carrying its credited amount. */
  function DocsOf(mints: seq<MintTx>): (docs: seq<MintDoc>)
    ensures |docs| == |mints|
    ensures forall i :: 0 <= i < |mints| ==> docs[i] == MintDoc(mints[i].mint.tick, Some(mints[i].amount))
    decreases |mints|
  {
    if |mints| == 0 then []
    else DocsOf(mints[..|mints| - 1]) + [MintDoc(mints[|mints| - 1].mint.tick, Some(mints[|mints| - 1].amount))]
  }

  /**
    Summing the stored records of a ticker's accepted mints, as the
    reconciliation does, gives the sum of their credited amounts.
   */
  lemma {:induction false} MintedSumOfCredited(mints: seq<MintTx>, tick: string)
    requires forall i :: 0 <= i < |mints| ==> mints[i].mint.tick == tick
    ensures MintedSum(DocsOf(mints), tick) == CreditedSum(mints)
    decreases |mints|
  {
    if |mints| > 0 {
      var init := mints[..|mints| - 1];
      var docs := DocsOf(mints);
      assert docs[..|docs| - 1] == DocsOf(init);
      MintedSumOfCredited(init, tick);
    }
  }

  /** Every ticker's total minted is the sum of its accepted mints. */
  predicate Reconciled(tickers: map<string, Ticker>)
  {
    forall t :: t in tickers ==> tickers[t].totalMinted == CreditedSum(tickers[t].mints)
  }

  /**
    One mint: validation, then the credited amount added to the ticker's
    total when accepted. The cap and the reconciliation are preserved, and
    the set of tickers does not change.
   */
  function ApplyMint(index: Index, op: MintOp, parse: Parser): (r: Index)
    ensures r.tickers.Keys == index.tickers.Keys
    ensures CapHolds(index.tickers) ==> CapHolds(r.tickers)
    ensures Reconciled(index.tickers) ==> Reconciled(r.tickers)
  {
    var validated := ValidateMint(op.tx, op.mint, index, parse);
    if validated.minted.isValid then
      var tick := op.mint.tick;
      var ms := validated.index.tickers[tick].mints;
      assert ms[..|ms| - 1] == index.tickers[tick].mints;
      validated.index.(tickers := IncrementTotalMinted(validated.index.tickers, tick, validated.minted.amount))
    else
      validated.index
  }

  /** A run of mints applied in order. */
  function ApplyMints(index: Index, ops: seq<MintOp>, parse: Parser): (r: Index)
    ensures r.tickers.Keys == index.tickers.Keys
    ensures CapHolds(index.tickers) ==> CapHolds(r.tickers)
    ensures Reconciled(index.tickers) ==> Reconciled(r.tickers)
    decreases |ops|
  {
    if |ops| == 0 then index
    else ApplyMint(ApplyMints(index, ops[..|ops| - 1], parse), ops[|ops| - 1], parse)
  }

  /** A freshly deployed ticker: nothing minted yet, no mint records. */
  predicate IsDeployed(ticker: Ticker)
  {
    ticker.totalMinted == 0 && ticker.mints == []
  }

  /**
    Over any run of mints against freshly deployed tickers with
    non-negative maximum supplies, every total stays within its cap and
    equals the sum of the ticker's accepted mints.
   */
  lemma FromDeployment(tickers: map<string, Ticker>, ops: seq<MintOp>, parse: Parser)
    requires forall t :: t in tickers ==> IsDeployed(tickers[t]) && 0 <= tickers[t].maxSupply
    ensures var r := ApplyMints(Index(tickers, []), ops, parse).tickers;
      CapHolds(r) && Reconciled(r)
  {
  }

  /** The decimal parser of the worked example: whole numbers "100", "950" and "1". */
  function ExampleParse(s: string, decimals: nat): Result<int, string>
  {
    if s == "100" then Success(100)
    else if s == "950" then Success(950)
    else if s == "1" then Success(1)
    else Failure("invalid amount")
  }

  function Ordi(totalMinted: int): Ticker
  {
    Ticker("ordi", 1000, 100, 0, totalMinted, [])
  }

  function MintOf(amt: string): Inscription
  {
    Inscription("mint", "ordi", Some(amt))
  }

  /**
    The cap and limit on a ticker with maximum supply 1000 and per-mint
    limit 100: a request of 950 is refused for the limit, at 900 minted a
    request of 100 is credited in full, and at 1000 minted a request of 1 is
    accepted but credited nothing.
   */
  lemma OrdiScenario()
    ensures Decide(Some(Ordi(0)), MintOf("950"), ExampleParse) == Rejected(ExceedsLimitReason)
    ensures Decide(Some(Ordi(900)), MintOf("100"), ExampleParse) == Accepted(100)
    ensures Decide(Some(Ordi(1000)), MintOf("1"), ExampleParse) == Accepted(0)
    ensures Decide(Some(Ordi(950)), MintOf("100"), ExampleParse) == Accepted(50)
  {
  }
}
