/**
  The BRC-20 mint validator: given the ticker registry and a mint
  inscription, decide whether the mint is rejected (unknown ticker, amount
  that fails to parse, amount above the per-mint limit) or accepted, in which
  case the credited amount is clamped to the supply that remains.
 */
module Mint {
  import opened Wrappers
  import opened Brc20

  const UnknownTickerReason := "Ticker symbol does not exist"
  const ExceedsLimitReason := "Mint amount exceeds limit"

  /** The decision of the validator, before any side effect. */
  datatype Verdict = Accepted(credited: int) | Rejected(reason: string)

  /** The validated mint together with the index it leaves behind. */
  datatype Validated = Validated(minted: MintTx, index: Index)

  /** A fresh mint for `tx`: amount zero, not (yet) valid. */
  function NewMintTx(tx: Tx, mint: Inscription): (m: MintTx)
    ensures m.tx == tx && m.mint == mint
    ensures !m.isValid && m.amount == 0
  {
    MintTx(tx, mint, 0, false)
  }

  /** The amount a mint asks for: its parsed `amt`, or zero when it has none. */
  function Requested(mint: Inscription, decimals: nat, parse: Parser): Result<int, string>
  {
    match mint.amt
    case None => Success(0)
    case Some(s) => parse(s, decimals)
  }

  /**
    The validator's decision. A mint is accepted exactly when its ticker is
    known, its amount parses and does not exceed the per-mint limit; the
    credited amount is the request, cut down so that the running total lands
    exactly on the maximum supply when the request would cross it.
   */
  function Decide(ticker: Option<Ticker>, mint: Inscription, parse: Parser): (v: Verdict)
    ensures ticker.None? ==> v == Rejected(UnknownTickerReason)
    ensures ticker.Some? ==>
      var req := Requested(mint, ticker.value.decimals, parse);
      && (v.Accepted? <==> req.Success? && req.value <= ticker.value.limit)
      && (req.Failure? ==> v == Rejected(req.error))
      && (req.Success? && req.value > ticker.value.limit ==> v == Rejected(ExceedsLimitReason))
    ensures v.Accepted? ==>
      && ticker.Some?
      && Requested(mint, ticker.value.decimals, parse).Success?
      && var t, req := ticker.value, Requested(mint, ticker.value.decimals, parse).value;
      && v.credited <= req
      && (t.totalMinted + req <= t.maxSupply ==> v.credited == req)
      && (t.totalMinted + req > t.maxSupply ==> t.totalMinted + v.credited == t.maxSupply)
      && (t.totalMinted <= t.maxSupply ==> t.totalMinted + v.credited <= t.maxSupply)
      && (t.totalMinted <= t.maxSupply && 0 <= req ==> 0 <= v.credited)
  {
    match ticker
    case None => Rejected(UnknownTickerReason)
    case Some(t) =>
      match Requested(mint, t.decimals, parse)
      case Failure(e) => Rejected(e)
      case Success(amount) =>
        if amount > t.limit then Rejected(ExceedsLimitReason)
        else if t.totalMinted + amount > t.maxSupply then Accepted(t.maxSupply - t.totalMinted)
        else Accepted(amount)
  }

  /**
    Validates a mint against the index and applies exactly one side effect:
    an accepted mint is appended to its ticker's mint records, a rejected one
    to the invalid-operation ledger.
   */
  function ValidateMint(tx: Tx, mint: Inscription, index: Index, parse: Parser): (r: Validated)
    ensures r.minted.tx == tx && r.minted.mint == mint
    ensures var v := Decide(Lookup(index.tickers, mint.tick), mint, parse);
      && r.minted.isValid == v.Accepted?
      && (v.Accepted? ==> r.minted.amount == v.credited)
      && (v.Rejected? ==> r.minted.amount == 0)
      && (v.Rejected? ==>
            && r.index.tickers == index.tickers
            && |r.index.invalid| == |index.invalid| + 1
            && r.index.invalid[..|index.invalid|] == index.invalid
            && r.index.invalid[|index.invalid|] == InvalidTx(tx.txid, mint, v.reason))
    ensures r.minted.isValid ==>
      && r.index.invalid == index.invalid
      && mint.tick in index.tickers
      && r.index.tickers.Keys == index.tickers.Keys
      && (forall t :: t in index.tickers && t != mint.tick ==> r.index.tickers[t] == index.tickers[t])
      && var before, after := index.tickers[mint.tick], r.index.tickers[mint.tick];
      && after.mints == before.mints + [r.minted]
      && after.totalMinted == before.totalMinted
      && after.maxSupply == before.maxSupply
      && after.limit == before.limit
      && after.decimals == before.decimals
      && after.tick == before.tick
  {
    var initial := NewMintTx(tx, mint);
    match Decide(Lookup(index.tickers, mint.tick), mint, parse)
    case Rejected(reason) =>
      Validated(initial, index.(invalid := AddInvalidTx(index.invalid, InvalidTx(tx.txid, mint, reason))))
    case Accepted(credited) =>
      var m := initial.(amount := credited, isValid := true);
      Validated(m, index.(tickers := index.tickers[mint.tick := AddMint(index.tickers[mint.tick], m)]))
  }

  /**
    The mint handler of the indexing pipeline. It never fails: the index
    keeps its set of tickers, and exactly one of the registry and the
    invalid-operation ledger changes.
   */
  function HandleMint(inscription: Inscription, tx: Tx, index: Index, parse: Parser): (r: Index)
    ensures r.tickers.Keys == index.tickers.Keys
    ensures (r.tickers == index.tickers) != (r.invalid == index.invalid)
    ensures (r.tickers != index.tickers) <==> Decide(Lookup(index.tickers, inscription.tick), inscription, parse).Accepted?
    ensures inscription.tick !in index.tickers ==>
      r == index.(invalid := index.invalid + [InvalidTx(tx.txid, inscription, UnknownTickerReason)])
  {
    var validated := ValidateMint(tx, inscription, index, parse);
    assert validated.minted.isValid ==>
      |validated.index.tickers[inscription.tick].mints| == |index.tickers[inscription.tick].mints| + 1;
    validated.index
  }

  /** A known ticker, within supply, credits nothing to a mint without `amt`. */
  lemma MissingAmountMintsZero(ticker: Ticker, mint: Inscription, parse: Parser)
    requires mint.amt.None?
    requires 0 <= ticker.limit
    requires ticker.totalMinted <= ticker.maxSupply
    ensures Decide(Some(ticker), mint, parse) == Accepted(0)
  {
  }
}
