# OOTD weekly lottery bot — Dafny model

This project models the pipeline inside the `main` function of the OOTD lottery bot
(`src/scripts/ootd_lottery_bot.js`). On each run the bot:

1. takes a snapshot of the holders of the OOTD token;
2. draws winners at random, without replacement;
3. cuts the winners into transactions of at most five transfers;
4. sends the prize to each winner, one batch after another.

The calls the bot makes into the outside world become input values:

- the base58 key decoder is a function from text to an optional payer address;
- the parsed-account ledger query is an optional list of `(owner, balance)` accounts;
- `crypto.randomInt` is a sequence of indices, each in range at its step;
- the associated-token-account derivation is a function from an address to an optional address;
- each batch's `sendAndConfirmTransaction` is one boolean in a sequence.

Once these values are fixed, every stage is a deterministic function of its inputs.

Modules, one per stage:

- `Seqs` and `Results`: sequence vocabulary (`Distinct`, `RemoveAt` = `splice(i, 1)`) and `Option`.
- `Snapshot`: the holder filter (lines 75-88).
- `Sampler`: the draw (lines 99-109).
- `Batching`: `slice(i, i + BATCH_SIZE)` partitioning (lines 129-131).
- `Transfers`: per-batch transfer instructions and the fault-tolerant submission loop (lines 136-172).
- `Lottery`: the whole run, its early exits, and end-to-end lemmas (lines 33-172).

Behaviour of the script that the model keeps:

- **No deduplication.** The holder filter (lines 85-86) pushes the owner of every eligible token account. An owner with several eligible accounts is entered once per account (`Snapshot.EligibleOwnersKeepDuplicates`). Winners are therefore distinct positions of the holder list, not necessarily distinct addresses (`Sampler.WinnersAtDistinctPositions`). Distinct addresses follow only when every owner has a single account (`Lottery.DistinctOwnersDistinctWinners`).
- **A derivation failure ends the run.** The derivation of a winner's token account (line 141) is outside any `try`, so its exception ends the whole run: earlier batches have been sent, and that batch and all later ones are not (`crashed` in `Transfers.Distribute`).
- **Failed batches are only logged.** The `catch` at lines 169-171 writes the error to the log and the loop goes on to the next batch.
- **One endpoint, payer-only exclusion.** The script talks to the single endpoint of line 16, and the only address it excludes from the draw is the payer (line 85).
- **Base58 keys only.** The payer key is decoded from base58 (line 46); any other format is an invalid key.

## Model

| member | source | states |
|---|---|---|
| Snapshot.EligibleOwners | src/scripts/ootd_lottery_bot.js:75-88 | the holder list is never longer than the account list and never contains the payer |
| Snapshot.EligibleOwnersSelect | src/scripts/ootd_lottery_bot.js:75-88 | the holder list is the owners of the accounts at an increasing list of positions, and that list holds exactly the accounts with balance > 0 not owned by the payer: account order is kept and nothing is merged |
| Snapshot.EligibleOwnersMembership | src/scripts/ootd_lottery_bot.js:81-87 | an address is a holder if and only if some account it owns has a positive balance and it is not the payer |
| Snapshot.EligibleOwnersKeepDuplicates | src/scripts/ootd_lottery_bot.js:76-88 | two eligible accounts with the same owner make the holder list contain a duplicate (no dedup step) |
| Snapshot.DistinctOwnersDistinctHolders | src/scripts/ootd_lottery_bot.js:76-88 | if no two accounts share an owner, the holder list has no duplicates |
| Snapshot.CollectHolders | src/scripts/ootd_lottery_bot.js:75-88 | the push loop over the accounts computes exactly the filtered owner list |
| Seqs.RemoveAt | src/scripts/ootd_lottery_bot.js:108 | `splice(i, 1)` shortens the working copy by exactly one |
| Seqs.RemoveAtMultiset | src/scripts/ootd_lottery_bot.js:108 | `splice(i, 1)` takes out exactly the element at `i`: the result plus that element is the original, counted with multiplicity |
| Seqs.RemoveAtShifts | src/scripts/ootd_lottery_bot.js:108 | `splice(i, 1)` keeps the elements before `i` in place and shifts each later one down by one position |
| Sampler.ValidDrawsRanges | src/scripts/ootd_lottery_bot.js:105-106 | the round-by-round condition on the generator answers holds exactly when answer `j` lies in `[0, n - j)` for each of the `min(count, n)` rounds, the range `randomInt(0, temp.length)` promises |
| Sampler.Sample | src/scripts/ootd_lottery_bot.js:99-109 | for any index oracle in range, the draw yields `min(count, |holders|)` winners and leaves `|holders|` minus that many in the working copy |
| Sampler.SampleConserves | src/scripts/ootd_lottery_bot.js:100-108 | winners plus the remaining working copy are exactly the holders, counted with multiplicity: nothing is lost, duplicated or invented |
| Sampler.SampleFromPool | src/scripts/ootd_lottery_bot.js:106-107 | every winner is an element of the holder list |
| Sampler.SampleKeepsDistinct | src/scripts/ootd_lottery_bot.js:105-109 | if the holder list has no duplicates, neither has the winner list |
| Sampler.SampleTracksPositions | src/scripts/ootd_lottery_bot.js:105-108 | drawing from a list and from the list of its positions makes corresponding picks |
| Sampler.WinnersAtDistinctPositions | src/scripts/ootd_lottery_bot.js:105-108 | the winners are the holder entries at pairwise different positions |
| Sampler.RoundsSample | src/scripts/ootd_lottery_bot.js:103-109 | running the loop's rounds front to back, `min(count, |holders|)` times, gives the same winners and working copy as the reference draw |
| Sampler.DrawWinners | src/scripts/ootd_lottery_bot.js:99-109 | the loop with its copy and `splice` computes the reference draw: `min(count, |holders|)` winners, multiset conservation with the working copy, and distinct winners from distinct holders |
| Batching.BatchCount | src/scripts/ootd_lottery_bot.js:129-130 | the number of loop rounds is the least `b` with `n <= b * 5`, so every winner is covered and no batch is empty |
| Batching.BatchCountIsCeil | src/scripts/ootd_lottery_bot.js:129-130 | the batch count equals `ceil(n / size)`, written `(n + size - 1) / size` |
| Batching.Slice | src/scripts/ootd_lottery_bot.js:131 | `slice(i, j)` returns the sub-range when in bounds, an empty list past the end, and the tail when the end overruns |
| Batching.Partition | src/scripts/ootd_lottery_bot.js:129-131 | the slicing loop gives `ceil(|winners| / 5)` batches, each non-empty and at most 5 long; batch `k` is `slice(5k, 5k + 5)`; read back in order they are the winners in draw order |
| Batching.WinnerBatch | src/scripts/ootd_lottery_bot.js:129-131 | winner `5k + t` (with `t < 5`) is element `t` of batch `k`, and batch `k` exists |
| Transfers.BuildBatch | src/scripts/ootd_lottery_bot.js:136-158 | a transaction is built if and only if every winner's token account derives; it then has one transfer per winner, in order, from the payer's account to that winner's account, signed by the payer, for the same amount |
| Transfers.Distribute | src/scripts/ootd_lottery_bot.js:130-172 | batches are submitted in order and each records its own outcome; a failed submission never stops later batches; the loop stops early only when a derivation fails, and then that batch is unsent; every transfer carries the same amount |
| Transfers.PrizeUnits | src/scripts/ootd_lottery_bot.js:148 | the amount `PRIZE_AMOUNT * 10^DECIMALS` is a whole number of tokens: divided by `10^DECIMALS` it gives back the prize with no remainder |
| Lottery.RunBot | src/scripts/ootd_lottery_bot.js:22-25 | with the configured constants (9 decimals, a prize of 1, one winner), a run that reaches the payout draws exactly one winner, sends one batch holding just that winner, and every transfer is 10^9 smallest units |
| Lottery.SingleBatch | src/scripts/ootd_lottery_bot.js:129-131 | a single winner is cut into a single batch holding exactly that winner |
| Lottery.Run | src/scripts/ootd_lottery_bot.js:33-172 | missing key, undecodable key, failed scan: the run stops before the draw; no eligible holder: it stops with no draw and no transfer; otherwise the winners are the draw from the eligible holders, of size `min(count, |holders|)`; a missing payer token account stops before any transfer; otherwise batch `k` is `slice(5k, 5k + 5)` of the winners, the batches read back in order are the winners, every attempted batch carries its own outcome, and every transfer is for `PRIZE_AMOUNT * 10^DECIMALS` |
| Lottery.WinnersAreEligible | src/scripts/ootd_lottery_bot.js:75-109 | every winner is not the payer and owns a snapshot account with a positive balance |
| Lottery.DistinctOwnersDistinctWinners | src/scripts/ootd_lottery_bot.js:75-109 | if every owner has one token account, no address is drawn twice |

## Left out

- `ootd_lottery_bot.js` at the repository root. Its scan and draw are placeholders. It dispatches the key format to library decoders. It writes a fixed history file. None of this is modelled.
- Logging, `dotenv`, and the `Connection` object. The account filters of the RPC query (data size 165, mint comparison) are not modelled either: the scan result is an input.
- Process exit codes. The early exits are the `Stopped`, `NoEligibleHolders` and `NoSourceAccount` outcomes. An uncaught derivation error is the `crashed` flag.
- Library internals: `bs58.decode`, `Keypair.fromSecretKey`, `getAssociatedTokenAddress` and `createTransferInstruction`. They are opaque and appear only through their inputs and results.
- Uniformity of `crypto.randomInt`. It cannot be stated in this setting. The generator is an index oracle, constrained only by its range.
- The balance `uiAmount` is a floating-point number in the source; the model keeps an integer balance and uses only its `> 0` test.
- Transaction signatures, the preflight setting, and the confirmation timeout. A batch's whole network outcome is one boolean.
- The `10 ** DECIMALS` Number arithmetic. It is modelled as an exact power of ten. It is exact for the configured 9 decimals.
- Scan idempotence. It holds trivially here, because the filter is a pure function of the query result.
- Mutation of `holders` by the draw. It cannot happen: the draw works on a copy (line 100), and in the model on an immutable value.
