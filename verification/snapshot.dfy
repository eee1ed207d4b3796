/**
 The holder snapshot: the parsed token accounts returned by the ledger query
 are filtered down to the owners who take part in the draw. An owner with
 several token accounts of the mint takes part once per eligible account:
 the filter keeps account order and removes no duplicates.
 */
module Snapshot {
  import opened Seqs

  /** Owner addresses are base58 text, compared as strings. */
  type Address = string

  /**
   The two fields the bot reads from a parsed token account. The balance is
   kept as an integer amount; only its sign is ever examined.
   */
  datatype TokenAccount = TokenAccount(owner: Address, balance: int)

  /** An account counts when it holds a positive balance and is not the payer's. */
  predicate Eligible(acc: TokenAccount, payer: Address)
  {
    acc.balance > 0 && acc.owner != payer
  }

  /** The owners of the eligible accounts, one entry per account, in account order. */
  function EligibleOwners(accounts: seq<TokenAccount>, payer: Address): (r: seq<Address>)
    ensures |r| <= |accounts|
    ensures payer !in r
  {
    if |accounts| == 0 then []
    else
      var last := accounts[|accounts| - 1];
      EligibleOwners(accounts[..|accounts| - 1], payer) + (if Eligible(last, payer) then [last.owner] else [])
  }

  /**
   `idx` lists, in increasing order, exactly the positions of the eligible
   accounts.
   */
  ghost predicate SelectsEligible(accounts: seq<TokenAccount>, payer: Address, idx: seq<nat>)
  {
    && (forall k :: 0 <= k < |idx| ==> idx[k] < |accounts|)
    && (forall k, l :: 0 <= k < l < |idx| ==> idx[k] < idx[l])
    && (forall i :: 0 <= i < |accounts| ==> (Eligible(accounts[i], payer) <==> i in idx))
  }

  /** The owners of the accounts at the listed positions. */
  function OwnersAt(accounts: seq<TokenAccount>, idx: seq<nat>): (r: seq<Address>)
    requires forall k :: 0 <= k < |idx| ==> idx[k] < |accounts|
    ensures |r| == |idx|
  {
    seq(|idx|, k requires 0 <= k < |idx| => accounts[idx[k]].owner)
  }

  /**
   The filter result is the order-preserving projection of the accounts onto
   their owners, restricted to exactly the eligible positions: a subsequence
   of the owners with nothing merged.
   */
  lemma {:induction false} EligibleOwnersSelect(accounts: seq<TokenAccount>, payer: Address) returns (idx: seq<nat>)
    ensures SelectsEligible(accounts, payer, idx)
    ensures EligibleOwners(accounts, payer) == OwnersAt(accounts, idx)
  {
    if |accounts| == 0 {
      idx := [];
    } else {
      var n := |accounts| - 1;
      var init := accounts[..n];
      var prev := EligibleOwnersSelect(init, payer);
      assert OwnersAt(accounts, prev) == OwnersAt(init, prev);
      if Eligible(accounts[n], payer) {
        idx := prev + [n];
        assert OwnersAt(accounts, idx) == OwnersAt(accounts, prev) + [accounts[n].owner];
      } else {
        idx := prev;
      }
      SelectsEligibleExtend(accounts, payer, prev, idx);
    }
  }

  /** A selection of the eligible positions below `n` extends to one of all
      positions by appending `n` exactly when the account at `n` is eligible. */
  lemma SelectsEligibleExtend(accounts: seq<TokenAccount>, payer: Address, prev: seq<nat>, idx: seq<nat>)
    requires |accounts| > 0
    requires SelectsEligible(accounts[..|accounts| - 1], payer, prev)
    requires idx == if Eligible(accounts[|accounts| - 1], payer) then prev + [|accounts| - 1] else prev
    ensures SelectsEligible(accounts, payer, idx)
  {
    var n := |accounts| - 1;
    var init := accounts[..n];
    forall i | 0 <= i < |accounts|
      ensures Eligible(accounts[i], payer) <==> i in idx
    {
      if i < n {
        assert accounts[i] == init[i];
        assert i in idx <==> i in prev;
      }
    }
  }

  /** Both directions of membership: an address is a holder exactly when
      some eligible account is owned by it. */
  lemma EligibleOwnersMembership(accounts: seq<TokenAccount>, payer: Address, x: Address)
    ensures x in EligibleOwners(accounts, payer) <==>
            exists i :: 0 <= i < |accounts| && Eligible(accounts[i], payer) && accounts[i].owner == x
  {
    var idx := EligibleOwnersSelect(accounts, payer);
    var r := EligibleOwners(accounts, payer);
    if x in r {
      var k :| 0 <= k < |r| && r[k] == x;
      assert idx[k] in idx;
      assert Eligible(accounts[idx[k]], payer);
    }
    if exists i :: 0 <= i < |accounts| && Eligible(accounts[i], payer) && accounts[i].owner == x {
      var i :| 0 <= i < |accounts| && Eligible(accounts[i], payer) && accounts[i].owner == x;
      var k :| 0 <= k < |idx| && idx[k] == i;
      assert r[k] == x;
    }
  }

  /**
   No deduplication: two eligible accounts of one owner put that owner into
   the holder list twice.
   */
  lemma EligibleOwnersKeepDuplicates(accounts: seq<TokenAccount>, payer: Address, i: nat, j: nat)
    requires i < j < |accounts|
    requires Eligible(accounts[i], payer) && Eligible(accounts[j], payer)
    requires accounts[i].owner == accounts[j].owner
    ensures !Distinct(EligibleOwners(accounts, payer))
  {
    var idx := EligibleOwnersSelect(accounts, payer);
    var r := EligibleOwners(accounts, payer);
    var k :| 0 <= k < |idx| && idx[k] == i;
    var l :| 0 <= l < |idx| && idx[l] == j;
    assert k < l;
    assert r[k] == r[l];
  }

  /** No two accounts share an owner. */
  predicate DistinctOwners(accounts: seq<TokenAccount>)
  {
    forall i, j :: 0 <= i < j < |accounts| ==> accounts[i].owner != accounts[j].owner
  }

  /** When every owner has a single token account, the holder list has no
      duplicate addresses. */
  lemma DistinctOwnersDistinctHolders(accounts: seq<TokenAccount>, payer: Address)
    requires DistinctOwners(accounts)
    ensures Distinct(EligibleOwners(accounts, payer))
  {
    var idx := EligibleOwnersSelect(accounts, payer);
    var r := EligibleOwners(accounts, payer);
    forall k, l | 0 <= k < l < |r|
      ensures r[k] != r[l]
    {
      assert idx[k] < idx[l];
      assert r[k] == accounts[idx[k]].owner && r[l] == accounts[idx[l]].owner;
    }
  }

  /**
   The snapshot loop as written: walk the accounts in order and push the
   owner of every account with a positive balance that is not the payer's.
   */
  method CollectHolders(accounts: seq<TokenAccount>, payer: Address) returns (holders: seq<Address>)
    ensures holders == EligibleOwners(accounts, payer)
  {
    holders := [];
    for i := 0 to |accounts|
      invariant holders == EligibleOwners(accounts[..i], payer)
    {
      var acc := accounts[i];
      assert accounts[..i + 1][..i] == accounts[..i];
      if acc.balance > 0 && acc.owner != payer {
        holders := holders + [acc.owner];
      }
    }
    assert accounts[..|accounts|] == accounts;
  }
}
