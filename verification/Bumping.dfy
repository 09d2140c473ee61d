/** Fee bumping from end to end: the replacement of a payment is signed, spends, and conflicts with it. */
module Bumping {
  import opened Prelude
  import opened Chain
  import opened Crypto
  import opened Bip32
  import opened Bip44
  import opened Wallet
  import opened Ledger
  import opened CoinSelection
  import opened CoinOutcome
  import opened CoinTheorems
  import opened SigningTheorems
  import opened SpendTheorems
  import opened EndToEnd
  import opened Acceptance
  import opened Replacement
  import KeySearch

  /** The wallet's first 700 addresses hold what the original spent first and every coin it might add. */
  ghost predicate OwnLedger(c: Suite, route: Route, first: Bip44Key, second: Bip44Key,
                            transactions: seq<Transaction>, toReplace: Transaction)
    requires c.n > 0 && toReplace.vins != []
  {
    && KeySearch.AddressBelow(c, route, first, second, 700, toReplace.vins[0].prevOut.scriptPubkeyAddress)
    && forall t, j :: Other(transactions, toReplace, t) && 0 <= j < |t.vouts| && Spendable(t.vouts[j]) ==>
         KeySearch.AddressBelow(c, route, first, second, 700, t.vouts[j].scriptPubkeyAddress)
  }

  lemma OtherIsOwned(c: Suite, route: Route, first: Bip44Key, second: Bip44Key,
                     transactions: seq<Transaction>, toReplace: Transaction, coin: Utxo)
    requires c.n > 0 && toReplace.vins != [] && OwnLedger(c, route, first, second, transactions, toReplace)
    requires FromOther(transactions, toReplace, coin)
    ensures KeySearch.AddressBelow(c, route, first, second, 700, coin.fromAddress)
  {
    hide Other, Spendable, FromTxId, KeySearch.AddressBelow;
    var t :| Other(transactions, toReplace, t) && ComesFrom(coin, t);
    var j :| CoinAt(coin, t, j);
    assert 0 <= j;
  }

  /** The coins offered for a replacement are the wallet's own. */
  lemma OfferedAreOwned(c: Suite, route: Route, first: Bip44Key, second: Bip44Key,
                        transactions: seq<Transaction>, toReplace: Transaction, coins: seq<Utxo>)
    requires c.n > 0 && WellFormedLedger(transactions, toReplace) && toReplace.vins != []
    requires OwnLedger(c, route, first, second, transactions, toReplace)
    requires GetUtxos(Candidates(transactions, toReplace)) == Some(coins)
    ensures Owned(c, route, first, second, coins)
  {
    OfferedCoins(transactions, toReplace);
    hide WellFormedLedger, GetUtxos, Candidates, FromOther, KeySearch.AddressBelow, Offered, Other, DistinctOutpoints;
    forall i | 0 <= i < |coins|
      ensures KeySearch.AddressBelow(c, route, first, second, 700, coins[i].fromAddress)
    {
      if i > 0 {
        OtherIsOwned(c, route, first, second, transactions, toReplace, coins[i]);
      }
    }
  }

  /** The transaction spends the output that the original's first input spends. */
  ghost predicate Conflicts(tx: MsgTx, original: Transaction)
    requires original.vins != []
  {
    exists i :: 0 <= i < |tx.txIn|
      && Some(tx.txIn[i].previousOutPoint) == FromTxId(original.vins[0].txId, original.vins[0].vout)
  }

  lemma FirstInputConflicts(signed: MsgTx, created: MsgTx, original: Transaction)
    requires original.vins != [] && SameInputs(signed, created) && created.txIn != []
    requires Some(created.txIn[0].previousOutPoint) == FromTxId(original.vins[0].txId, original.vins[0].vout)
    ensures signed.txIn != [] && Conflicts(signed, original)
  {
    hide FromTxId;
    assert signed.txIn[0].previousOutPoint == created.txIn[0].previousOutPoint;
  }

  /**
   When the original's first input and the other coins are at its addresses, the wallet bumps the fee exactly
   when the coins suffice: keys are found, and every signed replacement takes away the output that the original
   spends first, may be replaced again, and is accepted exactly when the request is acceptable.
   */
  lemma BumpIsSigned(c: Suite, timelock: uint32, first: ExtKey, second: ExtKey, q: Request,
                     transactions: seq<Transaction>, toReplace: Transaction, coins: seq<Utxo>,
                     ledger: map<OutPoint, TxOut>)
    requires Lawful(c) && c.n > 0 && ValidPrivate(c, first) && ValidPrivate(c, second)
    requires KeySearch.SearchKeys(c, first, second).Some?
    requires WellFormedLedger(transactions, toReplace) && toReplace.vins != []
    requires GetUtxos(Candidates(transactions, toReplace)) == Some(coins)
    requires var keys := KeySearch.SearchKeys(c, first, second).value;
      && Usable(c, KeyPath(timelock), keys.0, keys.1)
      && OwnLedger(c, KeyPath(timelock), keys.0, keys.1, transactions, toReplace)
    requires q.feeRate > 0.0 && q.amount >= 0 && Honest(c, ledger, coins) && NonNegative(coins)
    ensures q.Run(coins).Ok? <==> Funded(q, coins)
    ensures q.Run(coins).Ok? ==>
      && (exists signed :: SignedByBoth(c, timelock, first, second, q.Run(coins).value, signed))
      && forall signed :: SignedByBoth(c, timelock, first, second, q.Run(coins).value, signed) ==>
           && Conflicts(signed, toReplace) && Signals(signed)
           && (Accepted(c, ledger, signed) <==> Acceptable(q, coins))
  {
    hide *;
    var keys := KeySearch.SearchKeys(c, first, second).value;
    OfferedAreOwned(c, KeyPath(timelock), keys.0, keys.1, transactions, toReplace, coins);
    OfferedCoins(transactions, toReplace);
    WalletPays(c, timelock, first, second, q, coins, ledger);
    if q.Run(coins).Ok? {
      ReplacementConflicts(q, transactions, toReplace, coins);
      forall signed | SignedByBoth(c, timelock, first, second, q.Run(coins).value, signed)
        ensures Conflicts(signed, toReplace) && Signals(signed)
      {
        PaymentUnlocked(c, timelock, first, second, q, coins, signed);
        BothShape(c, timelock, first, second, q.Run(coins).value, signed);
        FirstInputConflicts(signed, q.Run(coins).value.msgTx, toReplace);
      }
    }
  }
}
