/**
 One run of the weekly lottery: read the payer's key, take the holder
 snapshot, draw the winners and pay them batch by batch. The key decoder,
 the ledger query, the secure generator, the token-account derivation and
 the transaction submission are supplied as values standing for what those
 calls returned.
 */
module Lottery {
  import opened Seqs
  import opened Results
  import opened Snapshot
  import opened Sampler
  import opened Batching
  import opened Transfers

  /** The run's fixed parameters. */
  datatype Config = Config(decimals: nat, prizeAmount: nat, winnersCount: nat)

  /** The values the bot is configured with: 9 decimals, a prize of 1 token,
      1 winner per draw. */
  const BOT_CONFIG: Config := Config(9, 1, 1)

  lemma Pow10Nine()
    ensures Pow10(9) == 1_000_000_000
  {
    assert Pow10(3) == 1000;
    assert Pow10(6) == 1_000_000;
  }

  /** Why a run ends before the draw. */
  datatype Stop = MissingKey | InvalidKey | ScanFailed

  datatype RunOutcome =
    | Stopped(reason: Stop)
    | NoEligibleHolders
    | NoSourceAccount(holders: seq<Address>, winners: seq<Address>)
    | Completed(holders: seq<Address>, winners: seq<Address>, batches: seq<seq<Address>>,
                records: seq<BatchRecord>, crashed: bool)

  /** The secret-key setting counts as present when it is set and non-empty. */
  predicate KeyPresent(secretKey: Option<string>)
  {
    secretKey.Some? && secretKey.value != ""
  }

  /** The payer's address, when the key is present and decodes. */
  function PayerOf(secretKey: Option<string>, decodeKey: string -> Option<Address>): Option<Address>
  {
    if KeyPresent(secretKey) then decodeKey(secretKey.value) else None
  }

  /**
   The generator and network answers cover a draw from `n` holders: one
   in-range index per round and one submission answer per batch.
   */
  predicate OraclesCover(cfg: Config, n: nat, draws: seq<int>, outcomes: seq<bool>)
  {
    && ValidDraws(n, cfg.winnersCount, draws, 0)
    && |outcomes| >= BatchCount(Min(cfg.winnersCount, n), BATCH_SIZE)
  }

  /**
   The whole run. It stops with an error when the key is missing or does
   not decode, stops quietly when the ledger query fails or nobody is
   eligible, draws `min(winnersCount, |holders|)` winners from the eligible
   holders, stops when the payer's own token account cannot be derived, and
   otherwise cuts the winners into batches of `BATCH_SIZE` and submits them
   in order, a failed submission never keeping a later batch from being
   sent.
   */
  method Run(cfg: Config, secretKey: Option<string>, decodeKey: string -> Option<Address>,
             scan: Option<seq<TokenAccount>>, ata: Address -> Option<Address>,
             draws: seq<int>, outcomes: seq<bool>) returns (r: RunOutcome)
    requires PayerOf(secretKey, decodeKey).Some? && scan.Some? ==>
               OraclesCover(cfg, |EligibleOwners(scan.value, PayerOf(secretKey, decodeKey).value)|, draws, outcomes)
    ensures r == Stopped(MissingKey) <==> !KeyPresent(secretKey)
    ensures r == Stopped(InvalidKey) <==> KeyPresent(secretKey) && decodeKey(secretKey.value).None?
    ensures r == Stopped(ScanFailed) <==> PayerOf(secretKey, decodeKey).Some? && scan.None?
    ensures r.NoEligibleHolders? <==>
              PayerOf(secretKey, decodeKey).Some? && scan.Some? &&
              EligibleOwners(scan.value, PayerOf(secretKey, decodeKey).value) == []
    ensures r.NoSourceAccount? || r.Completed? ==>
              && PayerOf(secretKey, decodeKey).Some? && scan.Some?
              && r.holders == EligibleOwners(scan.value, PayerOf(secretKey, decodeKey).value)
              && r.holders != []
              && r.winners == Sample(r.holders, cfg.winnersCount, draws, 0).winners
              && |r.winners| == Min(cfg.winnersCount, |r.holders|)
              && multiset(r.winners) <= multiset(r.holders)
    ensures r.NoSourceAccount? <==>
              PayerOf(secretKey, decodeKey).Some? && scan.Some? &&
              EligibleOwners(scan.value, PayerOf(secretKey, decodeKey).value) != [] &&
              ata(PayerOf(secretKey, decodeKey).value).None?
    ensures r.Completed? ==>
              && ata(PayerOf(secretKey, decodeKey).value).Some?
              && |r.batches| == BatchCount(|r.winners|, BATCH_SIZE)
              && Flatten(r.batches) == r.winners
              && (forall k :: 0 <= k < |r.batches| ==> 0 < |r.batches[k]| <= BATCH_SIZE)
              && (forall k :: 0 <= k < |r.batches| ==> r.batches[k] == BatchAt(r.winners, BATCH_SIZE, k))
              && |r.records| <= |r.batches| <= |outcomes|
              && (r.crashed <==> |r.records| < |r.batches|)
              && (r.crashed ==>
                    BuildBatch(r.batches[|r.records|], ata(PayerOf(secretKey, decodeKey).value).value,
                               PayerOf(secretKey, decodeKey).value, ata,
                               PrizeUnits(cfg.prizeAmount, cfg.decimals)).None?)
              && (forall k :: 0 <= k < |r.records| ==>
                    Submitted(r.records[k], k, r.batches[k], ata(PayerOf(secretKey, decodeKey).value).value,
                              PayerOf(secretKey, decodeKey).value, ata,
                              PrizeUnits(cfg.prizeAmount, cfg.decimals), outcomes[k]))
              && (forall k, t :: 0 <= k < |r.records| && 0 <= t < |r.records[k].instructions| ==>
                    r.records[k].instructions[t].amount == PrizeUnits(cfg.prizeAmount, cfg.decimals))
  {
    if secretKey.None? || secretKey.value == "" {
      return Stopped(MissingKey);
    }
    var decoded := decodeKey(secretKey.value);
    if decoded.None? {
      return Stopped(InvalidKey);
    }
    var payer := decoded.value;
    if scan.None? {
      return Stopped(ScanFailed);
    }
    var holders := CollectHolders(scan.value, payer);
    if |holders| == 0 {
      return NoEligibleHolders;
    }
    var winners, _ := DrawWinners(holders, cfg.winnersCount, draws);
    var source := ata(payer);
    if source.None? {
      return NoSourceAccount(holders, winners);
    }
    var batches := Partition(winners, BATCH_SIZE);
    var records, crashed := Distribute(batches, source.value, payer, ata,
                                       PrizeUnits(cfg.prizeAmount, cfg.decimals), outcomes);
    return Completed(holders, winners, batches, records, crashed);
  }

  /**
   Every winner owns an eligible account of the snapshot: a positive
   balance, and not the payer.
   */
  lemma WinnersAreEligible(accounts: seq<TokenAccount>, payer: Address, count: nat, draws: seq<int>)
    requires ValidDraws(|EligibleOwners(accounts, payer)|, count, draws, 0)
    ensures forall w :: w in Sample(EligibleOwners(accounts, payer), count, draws, 0).winners ==>
              w != payer &&
              exists i :: 0 <= i < |accounts| && accounts[i].owner == w && accounts[i].balance > 0
  {
    var holders := EligibleOwners(accounts, payer);
    SampleFromPool(holders, count, draws, 0);
    forall w | w in Sample(holders, count, draws, 0).winners
      ensures w != payer
      ensures exists i :: 0 <= i < |accounts| && accounts[i].owner == w && accounts[i].balance > 0
    {
      EligibleOwnersMembership(accounts, payer, w);
    }
  }

  /**
   When every owner holds a single token account, nobody is drawn twice.
   */
  lemma DistinctOwnersDistinctWinners(accounts: seq<TokenAccount>, payer: Address, count: nat, draws: seq<int>)
    requires DistinctOwners(accounts)
    requires ValidDraws(|EligibleOwners(accounts, payer)|, count, draws, 0)
    ensures Distinct(Sample(EligibleOwners(accounts, payer), count, draws, 0).winners)
  {
    DistinctOwnersDistinctHolders(accounts, payer);
    SampleKeepsDistinct(EligibleOwners(accounts, payer), count, draws, 0);
  }

  /**
   The run with the bot's configured constants. When it gets as far as the
   payout it has drawn exactly one winner, sends a single batch holding that
   winner, and every transfer it builds is for 10^9 smallest units.
   */
  method RunBot(secretKey: Option<string>, decodeKey: string -> Option<Address>,
                scan: Option<seq<TokenAccount>>, ata: Address -> Option<Address>,
                draws: seq<int>, outcomes: seq<bool>) returns (r: RunOutcome)
    requires PayerOf(secretKey, decodeKey).Some? && scan.Some? ==>
               OraclesCover(BOT_CONFIG, |EligibleOwners(scan.value, PayerOf(secretKey, decodeKey).value)|, draws, outcomes)
    ensures r.NoSourceAccount? || r.Completed? ==> |r.winners| == 1
    ensures r.Completed? ==> |r.batches| == 1 && r.batches[0] == r.winners
    ensures r.Completed? ==>
              forall k, t :: 0 <= k < |r.records| && 0 <= t < |r.records[k].instructions| ==>
                r.records[k].instructions[t].amount == 1_000_000_000
  {
    r := Run(BOT_CONFIG, secretKey, decodeKey, scan, ata, draws, outcomes);
    Pow10Nine();
    if r.Completed? {
      SingleBatch(r.winners, r.batches);
    }
  }

  /** One winner makes one batch holding just that winner. */
  lemma SingleBatch(winners: seq<Address>, batches: seq<seq<Address>>)
    requires |winners| == 1
    requires |batches| == BatchCount(|winners|, BATCH_SIZE)
    requires Flatten(batches) == winners
    ensures |batches| == 1 && batches[0] == winners
  {
    assert Flatten(batches) == Flatten(batches[..0]) + batches[0];
  }
}
