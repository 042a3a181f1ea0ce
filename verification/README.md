# BRC-20 mint validation and balance accounting, in Dafny

This project models the validation-and-accounting core of a BRC-20 indexer
(`qiwihui/bitcoin-brc20-indexer`), with the document store replaced by
in-memory maps and sequences and every amount an integer in the ticker's
fixed-point unit:

- **Mint validation** (`mint.dfy`, module `Mint`): the three outcomes of
  `validate_mint` — unknown ticker, amount that fails to parse or exceeds
  the per-mint limit, or acceptance with the credit clamped to the remaining
  supply — and its single side effect: an accepted mint is appended to its
  ticker's mint records, a rejected one to the invalid-operation ledger.
  `Brc20MintTx::new` is `NewMintTx`; the getters are the fields of the
  `MintTx` datatype.
- **Balance ledger** (`balances.dfy`, module `Balances`): the rebuild of
  user balances as a fold over the balance-entry log, its closed form, its
  independence from entry order and between pairs, the incremental
  receive/send/inscribe updates, and when the incremental path and the
  rebuild agree.
- **Ticker totals** (`tickers.dfy`, module `Tickers`): incrementing one
  ticker's total minted, resetting all totals, and the reconciliation that
  recomputes totals from the stored mint records, proved equal to replaying
  the increments.
- **Checkpoints** (`checkpoints.dfy`, module `Checkpoints`): the last
  completed block height and deletion of all records from a block height on.
- **Supply** (`supply.dfy`, module `Supply`): validation followed by the
  total-minted increment, over any run of mints: the cap and the
  reconciliation invariant are preserved. The source shows the increment
  (`update_brc20_ticker_total_minted`) but not its caller; in this
  composition, after an accepted mint, the credited amount is added to the
  ticker's total.

`wrappers.dfy` holds `Option` and `Result`; `brc20.dfy` holds the records
shared by the modules (`Tx`, `Inscription`, `MintTx`, `Ticker`,
`InvalidTx`, `Index`) and the two recording operations `AddMint` (append a
mint record, total untouched) and `AddInvalidTx` (append a rejection).

The decimal parser `convert_to_float` is a parameter of type
`Parser = (string, nat) -> Result<int, string>`; nothing is assumed about it.

## Behaviour of the code worth noting

- The rejection reasons are exactly "Ticker symbol does not exist"
  (mint.rs:54) and "Mint amount exceeds limit" (mint.rs:37); a parse
  failure is rejected with the parser's own error text (mint.rs:47-50).
- `Brc20Ticker::add_mint` (called at mint.rs:68) is not part of this
  model; it is taken to append the mint record only, so the validator's
  model leaves the ticker's total minted unchanged. The validator reads the
  in-memory ticker registry (mint.rs:23-26), while the shown code raises
  the total of the stored ticker document
  (`update_brc20_ticker_total_minted`, mongo.rs:230-268). `Supply` treats
  the stored tickers and the in-memory registry as one map.
- A send or inscription on a pair without a stored balance is dropped by
  the incremental updates (mongo.rs:106, and `upsert(false)` at
  mongo.rs:222), while the rebuild opens the pair at (0, 0, 0)
  (mongo.rs:517-519). `Balances.IncrementalDropsUnknownPair` shows the
  difference, and `Balances.ReplayMatchesRebuild` states when the two
  agree.
- When a ticker's total already exceeds its maximum supply, the clamped
  credit `max_supply - total_minted` (mint.rs:41) is negative; the credit
  is still the one that brings the total back to the maximum supply, and
  the cap bound is stated for totals within the supply.

## Model

| member | source | states |
|---|---|---|
| Mint.Decide | src/brc20_index/mint.rs:23-55 | unknown ticker is rejected with "Ticker symbol does not exist"; a parse error is rejected with the parser's text; an amount above the limit is rejected with "Mint amount exceeds limit"; acceptance holds exactly when the ticker exists, the amount parses and is within the limit; the credit never exceeds the request; it equals the request when total plus request stays within the maximum supply, and otherwise brings the total exactly to the maximum supply (negative when the total already exceeded it); it keeps the total within the cap when it was within it, and is non-negative for a non-negative request when the total is within the supply |
| Mint.NewMintTx | src/brc20_index/mint.rs:89-96 | a new mint carries the given transaction and inscription, amount 0, and is not valid |
| Mint.ValidateMint | src/brc20_index/mint.rs:12-77 | the result carries the same tx and inscription and a validity flag equal to the decision; a rejection leaves amount 0, leaves the ticker map unchanged and appends exactly one invalid record with the txid, inscription and reason; an acceptance carries the credited amount, leaves the invalid ledger unchanged, appends the mint to its ticker's mints and changes no other field and no other ticker |
| Mint.HandleMint | src/brc20_index/mint.rs:125-145 | handling a mint never fails, keeps the set of tickers, and changes exactly one of the ticker registry and the invalid ledger, the registry exactly when the validator's decision accepts the mint; an unknown ticker adds one "Ticker symbol does not exist" record and nothing else |
| Mint.MissingAmountMintsZero | src/brc20_index/mint.rs:27-30 | a mint without `amt` on a known ticker within supply (limit non-negative) is accepted with a credit of 0 |
| Balances.ApplyKind | src/brc20_index/mongo.rs:521-535 | each fold rule keeps overall == available + transferable, and changes overall by +amount for a receive, -amount for a send and not at all for an inscription |
| Balances.Rebuild | src/brc20_index/mongo.rs:494-536 | the rebuilt map has a balance for exactly the (address, tick) pairs the log touches, each of them consistent |
| Balances.RebuildIsNet | src/brc20_index/mongo.rs:514-535 | each rebuilt balance equals (0,0,0) plus the summed contributions of that pair's entries |
| Balances.NetPermutation | src/brc20_index/mongo.rs:500-535 | the summed contributions to a pair are the same for any permutation of the log |
| Balances.RebuildOrderIndependent | src/brc20_index/mongo.rs:500-535 | the rebuilt map is the same for any order in which the entries are fetched |
| Balances.RebuildPairIsolation | src/brc20_index/mongo.rs:514-519 | entries for other pairs neither create nor change a pair's rebuilt balance |
| Balances.UpdateReceiver | src/brc20_index/mongo.rs:297-363 | an existing balance gets the fold's receive rule; a missing one is created with available = overall = amount and transferable 0; no other pair changes; consistency is preserved |
| Balances.UpdateSender | src/brc20_index/mongo.rs:56-109 | an existing balance gets the fold's send rule (transferable and overall decrease by the amount); a missing one leaves the view unchanged; consistency is preserved |
| Balances.UpdateTransferInscriber | src/brc20_index/mongo.rs:111-150 | a stored balance keeps its overall and gets available = document's available - amount and transferable = document's transferable + amount, from the caller's document; given the stored balance it is the fold's inscription rule; a missing balance leaves the view unchanged |
| Balances.IncrementalMatchesStep | src/brc20_index/mongo.rs:72-107 | the incremental update equals the fold step when the pair already has a balance or the entry is a receive |
| Balances.IncrementalDropsUnknownPair | src/brc20_index/mongo.rs:106 | a send or inscription on a pair without a balance is dropped by the incremental path but opened and applied by the fold |
| Balances.ReplayMatchesRebuild | src/brc20_index/mongo.rs:297-363 | on a log where every send and inscription follows an earlier entry of its pair, incremental replay from an empty view, with each inscription given the currently stored balance as the caller's document, equals the rebuild |
| Tickers.IncrementTotalMinted | src/brc20_index/mongo.rs:230-268 | an existing ticker's total grows by the amount and nothing else changes; a missing ticker leaves the collection unchanged |
| Tickers.ResetTotalMinted | src/brc20_index/mongo.rs:440-454 | every ticker's total becomes 0 and no other field or key changes |
| Tickers.RecomputeTotalMinted | src/brc20_index/mongo.rs:456-492 | every ticker keeps its key and every field but its total, which becomes the sum of the numeric amounts of the mint records for its tick |
| Tickers.RecomputeAppend | src/brc20_index/mongo.rs:479-483 | recomputing over one more mint record adds its numeric amount to its ticker's total, and a record without a numeric amount changes nothing |
| Tickers.RecomputeIsReplay | src/brc20_index/mongo.rs:456-492 | the reconciliation equals resetting every total and replaying the increments of the mint records in order |
| Tickers.RecomputeAfterReset | src/brc20_index/mongo.rs:440-492 | the reconciliation does not depend on the totals it overwrites |
| Checkpoints.LastCompletedBlockHeight | src/brc20_index/mongo.rs:382-408 | none exactly when no block is recorded, otherwise a recorded height no smaller than any other |
| Checkpoints.StoreMovesCheckpoint | src/brc20_index/mongo.rs:365-408 | recording a block makes the checkpoint the larger of the old checkpoint and the new height |
| Checkpoints.DeleteFromCollection | src/brc20_index/mongo.rs:410-426 | the result holds only records without a block height or with one below the start, each kept record with its full multiplicity and each deleted record not at all, and is the whole collection when nothing qualifies for deletion |
| Checkpoints.DeleteAppend | src/brc20_index/mongo.rs:418-423 | deleting from a collection with one more record at its end keeps the survivors of the rest and then that record exactly when it is kept |
| Checkpoints.DeletePreservesOrder | src/brc20_index/mongo.rs:418-423 | deleting from two collections placed one after the other gives the survivors of each, in their original order |
| Checkpoints.RollbackMovesCheckpoint | src/brc20_index/mongo.rs:382-426 | after deleting completed blocks from a height on, the last completed block is below that height or none |
| Supply.ApplyMint | src/brc20_index/mint.rs:38-44 | one validated mint followed by the total increment keeps every total within its cap and equal to the sum of the ticker's accepted mints |
| Supply.ApplyMints | src/brc20_index/mint.rs:38-44 | the same holds over any run of mints |
| Supply.MintedSumOfCredited | src/brc20_index/mongo.rs:474-483 | summing the stored records of a ticker's accepted mints, as the reconciliation does, gives the sum of their credited amounts |
| Supply.FromDeployment | src/brc20_index/mint.rs:38-44 | starting from freshly deployed tickers, any run of mints leaves every total within its cap and equal to the sum of its accepted mints |
| Supply.OrdiScenario | src/brc20_index/mint.rs:35-44 | with maximum supply 1000 and limit 100: 950 is refused for the limit; at 900 minted, 100 is credited in full; at 950 minted, 100 is credited 50; at 1000 minted, 1 is accepted with credit 0 |

## Left out

- MongoDB connection setup and the `MONGO_DB_HOST` lookup (mongo.rs:19-38): configuration and I/O.
- Async execution, cursors, `insert_one`/`update_one`/`delete_many` mechanics and the panic in `insert_document`: storage plumbing; collections are maps and sequences.
- BSON type tags: the source patches a field only when it is stored as a double, writes 0.0 for a missing field, and fails the rebuild on a malformed entry; here every field is a typed integer, so these paths do not arise.
- Floating point: amounts are exact integers; `f64` rounding is not modelled.
- The write-back of the rebuild (mongo.rs:538-560), which inserts documents without clearing the collection: only the computed map is modelled, and it is a pure function of the log, so computing it twice gives the same map.
- `collection_exists`, `drop_collection`, `get_double`, `get_i32`, `insert_user_balance_entry`, and the timestamp written by `store_completed_block`: pure storage operations.
- Logging, `println!` and the `Display` impl of `Brc20MintTx`.
- `convert_to_float` and `Brc20Ticker::add_mint`, whose sources are not part of this model: the parser is a parameter, and adding a mint appends a record without touching the ticker's total.
- `InvalidBrc20TxMap::add_invalid_tx` is not part of this model either; it is taken to append a record, so no uniqueness of transaction ids in the invalid ledger is claimed.
- Checkpoints.LastCompletedBlockHeight: the source also returns none when the highest document's height is not a 64-bit integer; heights here are always integers.
- Tickers.RecomputeTotalMinted: which amount a stored mint record's `amt` holds (the request or the credit) is decided by serialization code that is not part of this model; records carry it as given.
- Supply.ApplyMint: the shown code raises the stored ticker document's total (mongo.rs:230-268) while the validator reads the in-memory registry (mint.rs:23-26), and nothing shown keeps the two in step; Supply treats the stored tickers and the in-memory registry as one map, adding the credited amount after an accepted mint. The call site of the increment is not part of this model.
- Balances.ReplayMatchesRebuild: the caller of `update_transfer_inscriber_user_balance_document` is not part of this model; the replay takes the caller's document to be the currently stored balance of the pair. A caller passing a stale document (read before an earlier update of the same pair) would make the incremental path and the rebuild disagree.
- Balances.UpdateReceiver: `UserBalance::new` (mongo.rs:349) is not part of this model; a new balance is taken to start at zero, so a first receive creates transferable 0.
- Deploy and transfer validation, and the balance entries emitted for a mint, are outside the files modelled here.
