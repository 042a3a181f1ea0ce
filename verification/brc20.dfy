/**
  Records shared by the mint validator and the supply accounting: the
  transaction carrying an inscription, the inscription itself, a validated
  mint, a deployed ticker, a rejected operation and the index that owns the
  ticker registry and the invalid-operation ledger.

  All amounts are integers in the ticker's fixed-point unit.
 */
module Brc20 {
  import opened Wrappers

  /** The base-ledger transaction that carries an inscription. */
  datatype Tx = Tx(txid: string, owner: string, blockHeight: int)

  /** A decoded BRC-20 payload; `amt` is the raw decimal string, if present. */
  datatype Inscription = Inscription(op: string, tick: string, amt: Option<string>)

  /** The outcome of validating one mint inscription. */
  datatype MintTx = MintTx(tx: Tx, mint: Inscription, amount: int, isValid: bool)

  /** A deployed token: protocol parameters, running total and accepted mints. */
  datatype Ticker = Ticker(
    tick: string,
    maxSupply: int,
    limit: int,
    decimals: nat,
    totalMinted: int,
    mints: seq<MintTx>)

  /** A rejected inscription with its human-readable reason. */
  datatype InvalidTx = InvalidTx(txid: string, inscription: Inscription, reason: string)

  /** The ticker registry and the invalid-operation ledger of one indexing run. */
  datatype Index = Index(tickers: map<string, Ticker>, invalid: seq<InvalidTx>)

  /**
    The decimal parser that turns an `amt` string into an integer amount
    scaled by the ticker's decimals, or into an error text.
   */
  type Parser = (string, nat) -> Result<int, string>

  function Lookup(tickers: map<string, Ticker>, tick: string): Option<Ticker>
  {
    if tick in tickers then Some(tickers[tick]) else None
  }

  /** Records an accepted mint on its ticker; the running total is not touched. */
  function AddMint(ticker: Ticker, m: MintTx): Ticker
  {
    ticker.(mints := ticker.mints + [m])
  }

  /** Records a rejected inscription in the invalid-operation ledger. */
  function AddInvalidTx(invalid: seq<InvalidTx>, entry: InvalidTx): seq<InvalidTx>
  {
    invalid + [entry]
  }
}
