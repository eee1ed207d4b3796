/**
 The payout: one transaction per batch holding one token-transfer
 instruction per winner, submitted batch after batch. A submission that
 fails is caught and recorded, and the next batch is still sent. The
 derivation of a winner's token account is not guarded, so a derivation
 that fails ends the run before its batch is submitted.
 */
module Transfers {
  import opened Seqs
  import opened Results
  import opened Snapshot
  import opened Batching

  function Pow10(n: nat): (r: nat)
    ensures r > 0
  {
    if n == 0 then 1 else 10 * Pow10(n - 1)
  }

  /**
   The amount every winner receives in the token's smallest unit: the prize
   quantity scaled by ten to the token's decimals. Read back in whole tokens
   it is exactly the prize, with no fractional remainder.
   */
  function PrizeUnits(prizeAmount: nat, decimals: nat): (r: nat)
    ensures r % Pow10(decimals) == 0
    ensures r / Pow10(decimals) == prizeAmount
  {
    var u := Pow10(decimals);
    assert (prizeAmount * u) / u == prizeAmount && (prizeAmount * u) % u == 0 by {
      DivExact(prizeAmount, u);
    }
    prizeAmount * u
  }

  /** Integer division undoes an exact multiple. */
  lemma DivExact(a: nat, u: nat)
    requires u > 0
    ensures (a * u) / u == a && (a * u) % u == 0
  {
    DivOfRange(a * u, u, a);
    assert a * u == ((a * u) / u) * u + (a * u) % u;
  }

  /** A token transfer `amount` from `source` to `destination`, authorised by `authority`. */
  datatype Instruction = Transfer(source: Address, destination: Address, authority: Address, amount: nat)

  /**
   The transaction for one batch: one transfer per winner, in batch order,
   from the payer's token account to the winner's, for the same amount.
   `ata` is the associated-token-account derivation; `None` stands for the
   derivation throwing, in which case no transaction is built.
   */
  function BuildBatch(batch: seq<Address>, source: Address, payer: Address,
                      ata: Address -> Option<Address>, amount: nat): (r: Option<seq<Instruction>>)
    ensures r.Some? <==> forall k :: 0 <= k < |batch| ==> ata(batch[k]).Some?
    ensures r.Some? ==> |r.value| == |batch|
    ensures r.Some? ==> forall k :: 0 <= k < |batch| ==>
              ata(batch[k]).Some? && r.value[k] == Transfer(source, ata(batch[k]).value, payer, amount)
  {
    if |batch| == 0 then Some([])
    else
      match BuildBatch(batch[..|batch| - 1], source, payer, ata, amount)
      case None => None
      case Some(init) =>
        match ata(batch[|batch| - 1])
        case None => None
        case Some(dest) => Some(init + [Transfer(source, dest, payer, amount)])
  }

  datatype BatchStatus = Confirmed | Failed

  /** What the run keeps of a submitted batch. */
  datatype BatchRecord = BatchRecord(index: nat, winners: seq<Address>, instructions: seq<Instruction>, status: BatchStatus)

  function StatusOf(confirmed: bool): BatchStatus
  {
    if confirmed then Confirmed else Failed
  }

  /** Batch `k` was built as `BuildBatch` says and submitted, with the
      outcome the network reported for it. */
  ghost predicate Submitted(rec: BatchRecord, k: nat, batch: seq<Address>, source: Address, payer: Address,
                            ata: Address -> Option<Address>, amount: nat, confirmed: bool)
  {
    && BuildBatch(batch, source, payer, ata, amount).Some?
    && rec == BatchRecord(k, batch, BuildBatch(batch, source, payer, ata, amount).value, StatusOf(confirmed))
  }

  /**
   The batch loop as written. `outcomes[k]` is the network's answer to the
   submission of batch `k` (true: confirmed; false: the send threw). A
   failed submission never stops the loop: every batch is submitted unless
   the derivation of some winner's token account fails, which ends the run
   (`crashed`) with the batches before it submitted and none after.
   */
  method Distribute(batches: seq<seq<Address>>, source: Address, payer: Address,
                    ata: Address -> Option<Address>, amount: nat, outcomes: seq<bool>)
    returns (records: seq<BatchRecord>, crashed: bool)
    requires |outcomes| >= |batches|
    ensures |records| <= |batches|
    ensures crashed <==> |records| < |batches|
    ensures crashed ==> BuildBatch(batches[|records|], source, payer, ata, amount).None?
    ensures forall k :: 0 <= k < |records| ==>
              Submitted(records[k], k, batches[k], source, payer, ata, amount, outcomes[k])
    ensures (forall k :: 0 <= k < |batches| ==> BuildBatch(batches[k], source, payer, ata, amount).Some?) ==>
              |records| == |batches|
    ensures forall k, t :: 0 <= k < |records| && 0 <= t < |records[k].instructions| ==>
              records[k].instructions[t].amount == amount
  {
    records := [];
    crashed := false;
    var k := 0;
    while k < |batches|
      invariant 0 <= k <= |batches|
      invariant |records| == k
      invariant forall j :: 0 <= j < k ==>
                  Submitted(records[j], j, batches[j], source, payer, ata, amount, outcomes[j])
      invariant forall j, t :: 0 <= j < k && 0 <= t < |records[j].instructions| ==>
                  records[j].instructions[t].amount == amount
    {
      var tx := BuildBatch(batches[k], source, payer, ata, amount);
      if tx.None? {
        crashed := true;
        return;
      }
      records := records + [BatchRecord(k, batches[k], tx.value, StatusOf(outcomes[k]))];
      k := k + 1;
    }
  }
}
